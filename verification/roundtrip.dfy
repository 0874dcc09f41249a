/**
 * Reading back what Write produced.  When every written line survives the
 * line split and the classifier (no key, value or section name contains a
 * separator or starts a comment, keys and values are trimmed), parsing the
 * written text with section parsing on restores every section and every
 * pair, whatever order Write chose.
 */
module RoundTrip {
  import opened Wrappers
  import opened Text
  import opened Document
  import opened Parser
  import opened Serializer

  /** The classification the parser gives the lines of one key map. */
  function PairKinds(kv: Kvmap, keys: seq<string>): (r: seq<LineKind>)
    requires forall i | 0 <= i < |keys| :: keys[i] in kv
    ensures |r| == |keys|
  {
    seq(|keys|, i requires 0 <= i < |keys| => Pair(keys[i], kv[keys[i]]))
  }

  /** The pairs of `kv` whose keys are listed in `keys`. */
  function Listed(kv: Kvmap, keys: seq<string>): (r: Kvmap)
    requires forall i | 0 <= i < |keys| :: keys[i] in kv
    ensures forall k | k in r :: k in kv && r[k] == kv[k]
  {
    map k | k in kv && k in keys :: kv[k]
  }

  /** The named sections listed in `order`. */
  function ListedSections(secs: SectionMap, order: seq<string>): (r: SectionMap)
    requires forall i | 0 <= i < |order| :: order[i] in secs
    ensures forall s | s in r :: s in secs && r[s] == secs[s]
  {
    map s | s in secs && s in order :: secs[s]
  }

  /** The classification the parser gives the named blocks. */
  function NamedKinds(secs: SectionMap, order: seq<string>, keyOrders: map<string, seq<string>>): seq<LineKind>
    requires forall i | 0 <= i < |order| :: order[i] in secs && order[i] in keyOrders
    requires forall s | s in secs && s in keyOrders :: forall i | 0 <= i < |keyOrders[s]| :: keyOrders[s][i] in secs[s]
  {
    if order == [] then []
    else
      var last := order[|order| - 1];
      NamedKinds(secs, order[..|order| - 1], keyOrders) + [Header(last)] + PairKinds(secs[last], keyOrders[last])
  }

  /** Every line of the written text survives the split on `linesep` and the
      classifier: section names and pair lines never run into the line
      separator, and each pair is writable. */
  predicate Readable(secs: SectionMap, linesep: string, kvsep: string, skipCommits: bool)
    requires |linesep| > 0
  {
    && (forall s | s in secs && s != DefaultSection :: Index(HeaderLine(s) + linesep, linesep) == |HeaderLine(s)|)
    && (forall s, k | s in secs && k in secs[s] ::
          && Index(PairLine(k, secs[s][k], kvsep) + linesep, linesep) == |PairLine(k, secs[s][k], kvsep)|
          && WritablePair(k, secs[s][k], kvsep, true, skipCommits))
  }

  lemma ClassifyAllAppend(a: seq<string>, b: seq<string>, kvsep: string, parseSection: bool, skipCommits: bool)
    ensures ClassifyAll(a + b, kvsep, parseSection, skipCommits)
         == ClassifyAll(a, kvsep, parseSection, skipCommits) + ClassifyAll(b, kvsep, parseSection, skipCommits)
  {
    ClassifyAllEach(a + b, kvsep, parseSection, skipCommits);
    ClassifyAllEach(a, kvsep, parseSection, skipCommits);
    ClassifyAllEach(b, kvsep, parseSection, skipCommits);
  }

  lemma ClassifyPairLines(kv: Kvmap, keys: seq<string>, kvsep: string, skipCommits: bool)
    requires forall i | 0 <= i < |keys| :: keys[i] in kv
    requires forall k | k in kv :: WritablePair(k, kv[k], kvsep, true, skipCommits)
    ensures ClassifyAll(PairLines(kv, keys, kvsep), kvsep, true, skipCommits) == PairKinds(kv, keys)
  {
    ClassifyAllEach(PairLines(kv, keys, kvsep), kvsep, true, skipCommits);
    forall i | 0 <= i < |keys|
      ensures Classify(PairLine(keys[i], kv[keys[i]], kvsep), kvsep, true, skipCommits) == Pair(keys[i], kv[keys[i]])
    {
      ClassifyWrittenPair(keys[i], kv[keys[i]], kvsep, true, skipCommits);
    }
  }

  lemma {:induction false} ClassifyNamedBlocks(secs: SectionMap, order: seq<string>, keyOrders: map<string, seq<string>>,
                                               kvsep: string, skipCommits: bool)
    requires forall i | 0 <= i < |order| :: order[i] in secs && order[i] in keyOrders
    requires forall s | s in secs && s in keyOrders :: forall i | 0 <= i < |keyOrders[s]| :: keyOrders[s][i] in secs[s]
    requires forall s, k | s in secs && k in secs[s] :: WritablePair(k, secs[s][k], kvsep, true, skipCommits)
    ensures ClassifyAll(NamedBlocks(secs, order, keyOrders, kvsep), kvsep, true, skipCommits)
         == NamedKinds(secs, order, keyOrders)
  {
    if order != [] {
      var last := order[|order| - 1];
      var front := order[..|order| - 1];
      ClassifyNamedBlocks(secs, front, keyOrders, kvsep, skipCommits);
      ClassifyAllAppend(NamedBlocks(secs, front, keyOrders, kvsep) + [HeaderLine(last)],
                        PairLines(secs[last], keyOrders[last], kvsep), kvsep, true, skipCommits);
      ClassifyAllAppend(NamedBlocks(secs, front, keyOrders, kvsep), [HeaderLine(last)], kvsep, true, skipCommits);
      ClassifyWrittenHeader(last, kvsep, skipCommits);
      assert ClassifyAll([HeaderLine(last)], kvsep, true, skipCommits) == [Header(last)];
      ClassifyPairLines(secs[last], keyOrders[last], kvsep, skipCommits);
    }
  }

  lemma ListedStep(kv: Kvmap, keys: seq<string>, base: Kvmap)
    requires |keys| > 0 && forall i | 0 <= i < |keys| :: keys[i] in kv
    ensures base[keys[0] := kv[keys[0]]] + Listed(kv, keys[1..]) == base + Listed(kv, keys)
  {
    assert forall k :: k in keys <==> k == keys[0] || k in keys[1..];
  }

  /** Reading the lines of one key map stores its listed pairs into the
      current section. */
  lemma {:induction false} ParsePairKinds(kv: Kvmap, keys: seq<string>, secs: SectionMap, cur: string)
    requires cur in secs
    requires forall i | 0 <= i < |keys| :: keys[i] in kv
    ensures ParseKinds(PairKinds(kv, keys), secs, cur) == ParseResult(secs[cur := secs[cur] + Listed(kv, keys)], cur, None)
  {
    var kinds := PairKinds(kv, keys);
    if keys == [] {
      assert Listed(kv, keys) == map[];
      assert secs[cur] + map[] == secs[cur];
      assert secs[cur := secs[cur]] == secs;
    } else {
      var k := keys[0];
      assert kinds[0] == Pair(k, kv[k]);
      assert kinds[1..] == PairKinds(kv, keys[1..]);
      var next := secs[cur := secs[cur][k := kv[k]]];
      ParsePairKinds(kv, keys[1..], next, cur);
      ListedStep(kv, keys, secs[cur]);
      assert next[cur := next[cur] + Listed(kv, keys[1..])] == secs[cur := secs[cur] + Listed(kv, keys)];
    }
  }

  lemma ListedAll(kv: Kvmap, keys: seq<string>)
    requires IsOrdering(keys, kv.Keys)
    ensures Listed(kv, keys) == kv
  {
  }

  /** Reading one named block installs the section afresh with exactly its pairs. */
  lemma ParseBlock(kv: Kvmap, keys: seq<string>, name: string, m: SectionMap, cur: string)
    requires cur in m && IsOrdering(keys, kv.Keys)
    ensures ParseKinds([Header(name)] + PairKinds(kv, keys), m, cur) == ParseResult(m[name := kv], name, None)
  {
    var m2 := m[name := map[]];
    var kinds := [Header(name)] + PairKinds(kv, keys);
    assert kinds[0] == Header(name) && kinds[1..] == PairKinds(kv, keys);
    assert ParseKinds(kinds, m, cur) == ParseKinds(PairKinds(kv, keys), m2, name);
    ParsePairKinds(kv, keys, m2, name);
    ListedAll(kv, keys);
    InstallFresh(m, name, kv);
  }

  lemma InstallFresh(m: SectionMap, name: string, kv: Kvmap)
    ensures var m2 := m[name := map[]]; m2[name := m2[name] + kv] == m[name := kv]
  {
    assert map[] + kv == kv;
  }

  lemma ListedSectionsStep(secs: SectionMap, order: seq<string>, m: SectionMap)
    requires |order| > 0 && forall i | 0 <= i < |order| :: order[i] in secs
    ensures var last := order[|order| - 1];
      (m + ListedSections(secs, order[..|order| - 1]))[last := secs[last]] == m + ListedSections(secs, order)
  {
    assert forall s :: s in order <==> s == order[|order| - 1] || s in order[..|order| - 1];
  }

  /** Reading the named blocks installs each listed section afresh with all
      of its pairs, and ends in the last one. */
  lemma {:induction false} ParseNamedKinds(secs: SectionMap, order: seq<string>, keyOrders: map<string, seq<string>>,
                                           m: SectionMap, cur: string)
    requires cur in m
    requires forall i | 0 <= i < |order| :: order[i] in secs && order[i] in keyOrders
    requires forall s | s in secs && s in keyOrders :: forall i | 0 <= i < |keyOrders[s]| :: keyOrders[s][i] in secs[s]
    requires forall s | s in secs && s in keyOrders :: IsOrdering(keyOrders[s], secs[s].Keys)
    ensures var r := ParseKinds(NamedKinds(secs, order, keyOrders), m, cur);
      && r.sections == m + ListedSections(secs, order)
      && r.err == None
      && r.section == if order == [] then cur else order[|order| - 1]
  {
    if order == [] {
      assert ListedSections(secs, order) == map[];
      assert m + map[] == m;
    } else {
      var last := order[|order| - 1];
      var front := order[..|order| - 1];
      var block := [Header(last)] + PairKinds(secs[last], keyOrders[last]);
      assert NamedKinds(secs, order, keyOrders) == NamedKinds(secs, front, keyOrders) + block;
      ParseNamedKinds(secs, front, keyOrders, m, cur);
      var r1 := ParseKinds(NamedKinds(secs, front, keyOrders), m, cur);
      ParseAppend(NamedKinds(secs, front, keyOrders), block, m, cur);
      ParseBlock(secs[last], keyOrders[last], last, r1.sections, r1.section);
      ListedSectionsStep(secs, order, m);
    }
  }

  /** The parser reads the written lines as the pairs of the default section
      followed by the named blocks. */
  lemma ClassifyDocument(secs: SectionMap, order: seq<string>, keyOrders: map<string, seq<string>>,
                         kvsep: string, skipCommits: bool)
    requires ValidLayout(secs, order, keyOrders)
    requires forall s, k | s in secs && k in secs[s] :: WritablePair(k, secs[s][k], kvsep, true, skipCommits)
    ensures ClassifyAll(DocumentLines(secs, order, keyOrders, kvsep), kvsep, true, skipCommits)
         == (if DefaultSection in secs then PairKinds(secs[DefaultSection], keyOrders[DefaultSection]) else [])
            + NamedKinds(secs, order, keyOrders)
  {
    var d := if DefaultSection in secs then PairLines(secs[DefaultSection], keyOrders[DefaultSection], kvsep) else [];
    ClassifyAllAppend(d, NamedBlocks(secs, order, keyOrders, kvsep), kvsep, true, skipCommits);
    ClassifyNamedBlocks(secs, order, keyOrders, kvsep, skipCommits);
    if DefaultSection in secs {
      ClassifyPairLines(secs[DefaultSection], keyOrders[DefaultSection], kvsep, skipCommits);
    }
  }

  /** The text is split back into the written lines plus one empty piece. */
  lemma SplitDocument(secs: SectionMap, order: seq<string>, keyOrders: map<string, seq<string>>,
                      linesep: string, kvsep: string, skipCommits: bool)
    requires |linesep| > 0 && ValidLayout(secs, order, keyOrders)
    requires Readable(secs, linesep, kvsep, skipCommits)
    ensures Split(Render(secs, order, keyOrders, kvsep, linesep), linesep)
         == DocumentLines(secs, order, keyOrders, kvsep) + [""]
  {
    var lines := DocumentLines(secs, order, keyOrders, kvsep);
    forall i | 0 <= i < |lines| ensures Index(lines[i] + linesep, linesep) == |lines[i]| {
      DocumentLineFrom(secs, order, keyOrders, kvsep, i);
    }
    SplitTerminated(lines, linesep);
  }

  /** Each written line is a header of a named section or the line of a stored pair. */
  lemma DocumentLineFrom(secs: SectionMap, order: seq<string>, keyOrders: map<string, seq<string>>, kvsep: string, i: int)
    requires ValidLayout(secs, order, keyOrders) && 0 <= i < |DocumentLines(secs, order, keyOrders, kvsep)|
    ensures var line := DocumentLines(secs, order, keyOrders, kvsep)[i];
      || (exists s | s in secs && s != DefaultSection :: line == HeaderLine(s))
      || (exists s, k | s in secs && k in secs[s] :: line == PairLine(k, secs[s][k], kvsep))
  {
    var d := if DefaultSection in secs then PairLines(secs[DefaultSection], keyOrders[DefaultSection], kvsep) else [];
    var named := NamedBlocks(secs, order, keyOrders, kvsep);
    assert DocumentLines(secs, order, keyOrders, kvsep) == d + named;
    LineOfConcat(d, named, i);
    if i < |d| {
      var k := keyOrders[DefaultSection][i];
      assert d[i] == PairLine(k, secs[DefaultSection][k], kvsep);
    } else {
      assert i - |d| < |named|;
      LayoutNamed(secs, order, keyOrders);
      NamedLineFrom(secs, order, keyOrders, kvsep, i - |d|);
    }
  }

  lemma LineOfConcat(front: seq<string>, back: seq<string>, i: int)
    requires 0 <= i < |front + back|
    ensures i < |front| ==> (front + back)[i] == front[i]
    ensures i >= |front| ==> (front + back)[i] == back[i - |front|]
  {
  }

  /** What a layout promises about its named sections, in the form the
      line-by-line lemmas take. */
  lemma LayoutNamed(secs: SectionMap, order: seq<string>, keyOrders: map<string, seq<string>>)
    requires ValidLayout(secs, order, keyOrders)
    ensures NamedListed(secs, order, keyOrders)
  {
  }

  /** The named sections in `order` exist and have key orders of stored keys. */
  predicate NamedListed(secs: SectionMap, order: seq<string>, keyOrders: map<string, seq<string>>) {
    && (forall j | 0 <= j < |order| :: order[j] in secs && order[j] != DefaultSection && order[j] in keyOrders)
    && forall s | s in secs && s in keyOrders :: forall j | 0 <= j < |keyOrders[s]| :: keyOrders[s][j] in secs[s]
  }

  lemma {:induction false} NamedLineFrom(secs: SectionMap, order: seq<string>, keyOrders: map<string, seq<string>>,
                                         kvsep: string, i: int)
    requires NamedListed(secs, order, keyOrders)
    requires 0 <= i < |NamedBlocks(secs, order, keyOrders, kvsep)|
    ensures var line := NamedBlocks(secs, order, keyOrders, kvsep)[i];
      || (exists s | s in secs && s != DefaultSection :: line == HeaderLine(s))
      || (exists s, k | s in secs && k in secs[s] :: line == PairLine(k, secs[s][k], kvsep))
  {
    var last := order[|order| - 1];
    var front := NamedBlocks(secs, order[..|order| - 1], keyOrders, kvsep);
    var pairs := PairLines(secs[last], keyOrders[last], kvsep);
    assert NamedBlocks(secs, order, keyOrders, kvsep) == front + [HeaderLine(last)] + pairs;
    if i < |front| {
      NamedLineFrom(secs, order[..|order| - 1], keyOrders, kvsep, i);
    } else if i > |front| {
      var k := keyOrders[last][i - |front| - 1];
      assert pairs[i - |front| - 1] == PairLine(k, secs[last][k], kvsep);
    }
  }

  /** The classification of the default section's lines. */
  function DefaultKinds(secs: SectionMap, order: seq<string>, keyOrders: map<string, seq<string>>): seq<LineKind>
    requires ValidLayout(secs, order, keyOrders)
  {
    if DefaultSection in secs then PairKinds(secs[DefaultSection], keyOrders[DefaultSection]) else []
  }

  lemma WrittenKinds(secs: SectionMap, order: seq<string>, keyOrders: map<string, seq<string>>,
                     linesep: string, kvsep: string, skipCommits: bool)
    requires |linesep| > 0 && ValidLayout(secs, order, keyOrders)
    requires Readable(secs, linesep, kvsep, skipCommits)
    ensures ClassifyAll(Split(Render(secs, order, keyOrders, kvsep, linesep), linesep), kvsep, true, skipCommits)
         == DefaultKinds(secs, order, keyOrders) + NamedKinds(secs, order, keyOrders) + [Blank]
  {
    var lines := DocumentLines(secs, order, keyOrders, kvsep);
    SplitDocument(secs, order, keyOrders, linesep, kvsep, skipCommits);
    ClassifyAllAppend(lines, [""], kvsep, true, skipCommits);
    ClassifyDocument(secs, order, keyOrders, kvsep, skipCommits);
    assert ClassifyAll([""], kvsep, true, skipCommits) == [Blank];
  }

  lemma ParseDefaultKinds(secs: SectionMap, order: seq<string>, keyOrders: map<string, seq<string>>, m: SectionMap)
    requires ValidLayout(secs, order, keyOrders)
    requires DefaultSection in m && m[DefaultSection] == map[]
    ensures ParseKinds(DefaultKinds(secs, order, keyOrders), m, DefaultSection)
         == ParseResult(m[DefaultSection := SectionOf(secs, DefaultSection)], DefaultSection, None)
  {
    if DefaultSection in secs {
      ParsePairKinds(secs[DefaultSection], keyOrders[DefaultSection], m, DefaultSection);
      ListedAll(secs[DefaultSection], keyOrders[DefaultSection]);
      assert m[DefaultSection] + secs[DefaultSection] == secs[DefaultSection];
    } else {
      assert m[DefaultSection := map[]] == m;
    }
  }

  lemma ParsedSections(before: SectionMap, secs: SectionMap, order: seq<string>, keyOrders: map<string, seq<string>>)
    requires ValidLayout(secs, order, keyOrders)
    ensures before[DefaultSection := map[]][DefaultSection := SectionOf(secs, DefaultSection)] + ListedSections(secs, order)
         == (before + secs)[DefaultSection := SectionOf(secs, DefaultSection)]
  {
    assert forall s | s in secs && s != DefaultSection :: s in order;
  }

  /** Parsing the written text reads the default pairs, the named blocks and a trailing blank line. */
  lemma ParseWrittenText(before: SectionMap, secs: SectionMap, order: seq<string>, keyOrders: map<string, seq<string>>,
                         linesep: string, kvsep: string, skipCommits: bool)
    requires |linesep| > 0 && ValidLayout(secs, order, keyOrders)
    requires Readable(secs, linesep, kvsep, skipCommits)
    ensures ParseData(before, Render(secs, order, keyOrders, kvsep, linesep), linesep, kvsep, true, skipCommits)
         == ParseKinds(DefaultKinds(secs, order, keyOrders) + NamedKinds(secs, order, keyOrders) + [Blank],
                       before[DefaultSection := map[]], DefaultSection)
  {
    WrittenKinds(secs, order, keyOrders, linesep, kvsep, skipCommits);
  }

  lemma ParseWrittenKinds(m0: SectionMap, secs: SectionMap, order: seq<string>, keyOrders: map<string, seq<string>>)
    requires ValidLayout(secs, order, keyOrders)
    requires DefaultSection in m0 && m0[DefaultSection] == map[]
    ensures var r := ParseKinds(DefaultKinds(secs, order, keyOrders) + NamedKinds(secs, order, keyOrders) + [Blank],
                                m0, DefaultSection);
      && r.err == None
      && r.sections == m0[DefaultSection := SectionOf(secs, DefaultSection)] + ListedSections(secs, order)
  {
    var dk := DefaultKinds(secs, order, keyOrders);
    var nk := NamedKinds(secs, order, keyOrders);
    var m1 := m0[DefaultSection := SectionOf(secs, DefaultSection)];
    var r := ParseKinds(dk + nk, m0, DefaultSection);
    ParseAppend(dk + nk, [Blank], m0, DefaultSection);
    assert r.err.None? ==> ParseKinds([Blank], r.sections, r.section) == r;
    ParseDefaultKinds(secs, order, keyOrders, m0);
    ParseAppend(dk, nk, m0, DefaultSection);
    ParseNamedKinds(secs, order, keyOrders, m1, DefaultSection);
  }

  /** Write then parse: parsing the written text into an object whose
      sections were `before` leaves the default section holding exactly the
      written default pairs (empty when there were none), every written
      named section holding exactly its pairs, every other section of
      `before` untouched, and no error. */
  lemma WriteThenParse(before: SectionMap, secs: SectionMap, order: seq<string>, keyOrders: map<string, seq<string>>,
                       linesep: string, kvsep: string, skipCommits: bool)
    requires |linesep| > 0 && ValidLayout(secs, order, keyOrders)
    requires Readable(secs, linesep, kvsep, skipCommits)
    ensures var r := ParseData(before, Render(secs, order, keyOrders, kvsep, linesep), linesep, kvsep, true, skipCommits);
      && r.err == None
      && r.sections == (before + secs)[DefaultSection := SectionOf(secs, DefaultSection)]
  {
    ParseWrittenText(before, secs, order, keyOrders, linesep, kvsep, skipCommits);
    var m0 := before[DefaultSection := map[]];
    ParseWrittenKinds(m0, secs, order, keyOrders);
    ParsedSections(before, secs, order, keyOrders);
  }

  /** Read back through the accessors: after the round trip every written
      pair is found with its value, and a key that was not written is not found. */
  lemma WrittenPairsReadBack(before: SectionMap, secs: SectionMap, order: seq<string>, keyOrders: map<string, seq<string>>,
                             linesep: string, kvsep: string, skipCommits: bool, s: string, k: string)
    requires |linesep| > 0 && ValidLayout(secs, order, keyOrders)
    requires Readable(secs, linesep, kvsep, skipCommits)
    requires s in secs
    ensures var r := ParseData(before, Render(secs, order, keyOrders, kvsep, linesep), linesep, kvsep, true, skipCommits);
      Lookup(r.sections, s, k) == Lookup(secs, s, k)
  {
    WriteThenParse(before, secs, order, keyOrders, linesep, kvsep, skipCommits);
  }
}
