/**
 * The text ini.go's Write produces.  Go's map iteration order is not
 * fixed, so the output is described for any order of the named sections
 * and any order of the keys inside each section (a layout); Write picks one.
 */
module Serializer {
  import opened Text
  import opened Document

  /** `keys` lists every element of `s` exactly once. */
  predicate IsOrdering(keys: seq<string>, s: set<string>) {
    && (forall i | 0 <= i < |keys| :: keys[i] in s)
    && (forall x | x in s :: x in keys)
    && (forall i, j | 0 <= i < j < |keys| :: keys[i] != keys[j])
  }

  /** An order of the named sections, and for each section an order of its keys. */
  predicate ValidLayout(secs: SectionMap, order: seq<string>, keyOrders: map<string, seq<string>>) {
    && IsOrdering(order, secs.Keys - {DefaultSection})
    && forall s | s in secs :: s in keyOrders && IsOrdering(keyOrders[s], secs[s].Keys)
  }

  function PairLine(k: string, v: string, kvsep: string): string {
    k + kvsep + v
  }

  function HeaderLine(name: string): string {
    "[" + name + "]"
  }

  /** The lines `write` emits for one key map, in the order `keys`. */
  function PairLines(kv: Kvmap, keys: seq<string>, kvsep: string): (r: seq<string>)
    requires forall i | 0 <= i < |keys| :: keys[i] in kv
  {
    seq(|keys|, i requires 0 <= i < |keys| => PairLine(keys[i], kv[keys[i]], kvsep))
  }

  /** The header and pair lines of the named sections in `order`. */
  function NamedBlocks(secs: SectionMap, order: seq<string>, keyOrders: map<string, seq<string>>, kvsep: string): seq<string>
    requires forall i | 0 <= i < |order| :: order[i] in secs && order[i] in keyOrders
    requires forall s | s in secs && s in keyOrders :: forall i | 0 <= i < |keyOrders[s]| :: keyOrders[s][i] in secs[s]
  {
    if order == [] then []
    else
      var last := order[|order| - 1];
      NamedBlocks(secs, order[..|order| - 1], keyOrders, kvsep)
        + [HeaderLine(last)] + PairLines(secs[last], keyOrders[last], kvsep)
  }

  /** Every line Write emits, without the line separators: the default
      section's pairs first, with no header, then each named section. */
  function DocumentLines(secs: SectionMap, order: seq<string>, keyOrders: map<string, seq<string>>, kvsep: string): seq<string>
    requires ValidLayout(secs, order, keyOrders)
  {
    (if DefaultSection in secs then PairLines(secs[DefaultSection], keyOrders[DefaultSection], kvsep) else [])
      + NamedBlocks(secs, order, keyOrders, kvsep)
  }

  /** The bytes Write produces: every line followed by the line separator.
      When no line runs into the separator, splitting the bytes on it gives
      the lines back, then one empty piece. */
  function Render(secs: SectionMap, order: seq<string>, keyOrders: map<string, seq<string>>,
                  kvsep: string, linesep: string): (r: string)
    requires ValidLayout(secs, order, keyOrders)
    ensures var lines := DocumentLines(secs, order, keyOrders, kvsep);
      (linesep != [] && forall i | 0 <= i < |lines| :: Index(lines[i] + linesep, linesep) == |lines[i]|)
      ==> Split(r, linesep) == lines + [""]
  {
    var lines := DocumentLines(secs, order, keyOrders, kvsep);
    if linesep != [] && (forall i | 0 <= i < |lines| :: Index(lines[i] + linesep, linesep) == |lines[i]|) then
      SplitTerminated(lines, linesep);
      Terminated(lines, linesep)
    else
      Terminated(lines, linesep)
  }

  lemma {:induction false} DistinctCount(keys: seq<string>, s: set<string>)
    requires IsOrdering(keys, s)
    ensures |keys| == |s|
  {
    if keys != [] {
      var x := keys[|keys| - 1];
      var rest := keys[..|keys| - 1];
      assert IsOrdering(rest, s - {x}) by {
        forall y | y in s - {x} ensures y in rest {
          var i :| 0 <= i < |keys| && keys[i] == y;
          assert i < |keys| - 1;
          assert rest[i] == y;
        }
      }
      DistinctCount(rest, s - {x});
    }
  }

  /** One line per stored pair: a key map is written as exactly `|kv|` lines,
      among them `k + kvsep + v` for each of its pairs. */
  lemma PairLinesExact(kv: Kvmap, keys: seq<string>, kvsep: string)
    requires IsOrdering(keys, kv.Keys)
    ensures |PairLines(kv, keys, kvsep)| == |kv|
    ensures forall k | k in kv :: PairLine(k, kv[k], kvsep) in PairLines(kv, keys, kvsep)
  {
    DistinctCount(keys, kv.Keys);
    forall k | k in kv ensures PairLine(k, kv[k], kvsep) in PairLines(kv, keys, kvsep) {
      var i :| 0 <= i < |keys| && keys[i] == k;
      assert PairLines(kv, keys, kvsep)[i] == PairLine(k, kv[k], kvsep);
    }
  }

  /** Every named section in the layout has its header among the lines. */
  lemma {:induction false} HeadersWritten(secs: SectionMap, order: seq<string>, keyOrders: map<string, seq<string>>,
                                          kvsep: string, name: string)
    requires forall i | 0 <= i < |order| :: order[i] in secs && order[i] in keyOrders
    requires forall s | s in secs && s in keyOrders :: forall i | 0 <= i < |keyOrders[s]| :: keyOrders[s][i] in secs[s]
    requires name in order
    ensures HeaderLine(name) in NamedBlocks(secs, order, keyOrders, kvsep)
  {
    var last := order[|order| - 1];
    if name != last {
      var i :| 0 <= i < |order| && order[i] == name;
      assert order[..|order| - 1][i] == name;
      HeadersWritten(secs, order[..|order| - 1], keyOrders, kvsep, name);
    }
  }

  /** The number of pairs stored in the sections `names`. */
  function PairCount(secs: SectionMap, names: seq<string>): nat
    requires forall i | 0 <= i < |names| :: names[i] in secs
  {
    if names == [] then 0 else PairCount(secs, names[..|names| - 1]) + |secs[names[|names| - 1]]|
  }

  /** The named sections' blocks hold one header line per section and one
      line per pair. */
  lemma {:induction false} NamedBlocksCount(secs: SectionMap, order: seq<string>, keyOrders: map<string, seq<string>>,
                                            kvsep: string)
    requires forall i | 0 <= i < |order| :: order[i] in secs && order[i] in keyOrders
    requires forall s | s in secs && s in keyOrders :: forall i | 0 <= i < |keyOrders[s]| :: keyOrders[s][i] in secs[s]
    requires forall s | s in secs && s in keyOrders :: IsOrdering(keyOrders[s], secs[s].Keys)
    ensures |NamedBlocks(secs, order, keyOrders, kvsep)| == |order| + PairCount(secs, order)
  {
    if order != [] {
      var last := order[|order| - 1];
      NamedBlocksCount(secs, order[..|order| - 1], keyOrders, kvsep);
      PairLinesExact(secs[last], keyOrders[last], kvsep);
    }
  }

  /** Every pair of every named section in the layout has its line among
      the named sections' blocks. */
  lemma {:induction false} NamedBlocksPairs(secs: SectionMap, order: seq<string>, keyOrders: map<string, seq<string>>,
                                            kvsep: string, s: string, k: string)
    requires forall i | 0 <= i < |order| :: order[i] in secs && order[i] in keyOrders
    requires forall s | s in secs && s in keyOrders :: forall i | 0 <= i < |keyOrders[s]| :: keyOrders[s][i] in secs[s]
    requires forall s | s in secs && s in keyOrders :: IsOrdering(keyOrders[s], secs[s].Keys)
    requires s in order && s in secs && k in secs[s]
    ensures PairLine(k, secs[s][k], kvsep) in NamedBlocks(secs, order, keyOrders, kvsep)
  {
    var last := order[|order| - 1];
    var front := order[..|order| - 1];
    var pairs := PairLines(secs[last], keyOrders[last], kvsep);
    assert NamedBlocks(secs, order, keyOrders, kvsep) == NamedBlocks(secs, front, keyOrders, kvsep) + [HeaderLine(last)] + pairs;
    if s == last {
      PairLinesExact(secs[last], keyOrders[last], kvsep);
      assert PairLine(k, secs[s][k], kvsep) in pairs;
    } else {
      var i :| 0 <= i < |order| && order[i] == s;
      assert front[i] == s;
      NamedBlocksPairs(secs, front, keyOrders, kvsep, s, k);
    }
  }

  /** The default section's pairs open the text, one line each. */
  lemma DefaultLinesFirst(secs: SectionMap, order: seq<string>, keyOrders: map<string, seq<string>>, kvsep: string)
    requires ValidLayout(secs, order, keyOrders) && DefaultSection in secs
    ensures var lines := DocumentLines(secs, order, keyOrders, kvsep);
      && |secs[DefaultSection]| <= |lines|
      && lines[..|secs[DefaultSection]|] == PairLines(secs[DefaultSection], keyOrders[DefaultSection], kvsep)
  {
    PairLinesExact(secs[DefaultSection], keyOrders[DefaultSection], kvsep);
    var d := PairLines(secs[DefaultSection], keyOrders[DefaultSection], kvsep);
    var lines := DocumentLines(secs, order, keyOrders, kvsep);
    assert lines == d + NamedBlocks(secs, order, keyOrders, kvsep);
    assert lines[..|d|] == d;
  }

  /** Every stored pair has its line in the text. */
  lemma PairsWritten(secs: SectionMap, order: seq<string>, keyOrders: map<string, seq<string>>, kvsep: string)
    requires ValidLayout(secs, order, keyOrders)
    ensures var lines := DocumentLines(secs, order, keyOrders, kvsep);
      forall s, k | s in secs && k in secs[s] :: PairLine(k, secs[s][k], kvsep) in lines
  {
    var lines := DocumentLines(secs, order, keyOrders, kvsep);
    var named := NamedBlocks(secs, order, keyOrders, kvsep);
    var d := if DefaultSection in secs then PairLines(secs[DefaultSection], keyOrders[DefaultSection], kvsep) else [];
    assert lines == d + named;
    forall s, k | s in secs && k in secs[s] ensures PairLine(k, secs[s][k], kvsep) in lines {
      if s == DefaultSection {
        PairLinesExact(secs[DefaultSection], keyOrders[DefaultSection], kvsep);
        assert PairLine(k, secs[s][k], kvsep) in d;
      } else {
        assert s in order;
        NamedBlocksPairs(secs, order, keyOrders, kvsep, s, k);
      }
    }
  }

  /** One line per named section and one per stored pair, no more. */
  lemma LinesCount(secs: SectionMap, order: seq<string>, keyOrders: map<string, seq<string>>, kvsep: string)
    requires ValidLayout(secs, order, keyOrders)
    ensures |DocumentLines(secs, order, keyOrders, kvsep)|
         == |secs.Keys - {DefaultSection}| + PairCount(secs, order)
            + (if DefaultSection in secs then |secs[DefaultSection]| else 0)
  {
    NamedBlocksCount(secs, order, keyOrders, kvsep);
    DistinctCount(order, secs.Keys - {DefaultSection});
    if DefaultSection in secs {
      PairLinesExact(secs[DefaultSection], keyOrders[DefaultSection], kvsep);
    }
  }

  /** The written text, in the system's own terms: the default section's
      pairs come first and without a header; every named section's header
      line and every stored pair's line are there; and there are exactly as
      many lines as named sections plus stored pairs. */
  lemma DocumentLinesShape(secs: SectionMap, order: seq<string>, keyOrders: map<string, seq<string>>, kvsep: string)
    requires ValidLayout(secs, order, keyOrders)
    ensures var lines := DocumentLines(secs, order, keyOrders, kvsep);
      && (DefaultSection in secs ==>
            && |secs[DefaultSection]| <= |lines|
            && lines[..|secs[DefaultSection]|] == PairLines(secs[DefaultSection], keyOrders[DefaultSection], kvsep))
      && (forall s | s in secs && s != DefaultSection :: HeaderLine(s) in lines)
      && (forall s, k | s in secs && k in secs[s] :: PairLine(k, secs[s][k], kvsep) in lines)
      && |lines| == |secs.Keys - {DefaultSection}| + PairCount(secs, order)
                    + (if DefaultSection in secs then |secs[DefaultSection]| else 0)
  {
    if DefaultSection in secs {
      DefaultLinesFirst(secs, order, keyOrders, kvsep);
    }
    var lines := DocumentLines(secs, order, keyOrders, kvsep);
    assert lines == (if DefaultSection in secs then PairLines(secs[DefaultSection], keyOrders[DefaultSection], kvsep) else [])
                    + NamedBlocks(secs, order, keyOrders, kvsep);
    forall s | s in secs && s != DefaultSection ensures HeaderLine(s) in lines {
      HeadersWritten(secs, order, keyOrders, kvsep, s);
    }
    PairsWritten(secs, order, keyOrders, kvsep);
    LinesCount(secs, order, keyOrders, kvsep);
  }
}
