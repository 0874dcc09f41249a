/**
 * The line classifier and the parse of ini.go's parseINI, as functions over
 * values.  The class in module Goini runs the same steps in a loop and is
 * proved to end in the state these functions describe.
 *
 * In ini.go the loop keeps a local map `kvmap` that is always the map
 * stored under the current section name (both are replaced together when a
 * header is read), so storing a pair into `kvmap` is storing it into
 * `sections[section]`; the functions below write it that way.
 */
module Parser {
  import opened Wrappers
  import opened Text
  import opened Document

  /** What one line of input is, after trimming. */
  datatype LineKind =
    | Blank
    | Comment
    | Header(name: string)
    | Pair(key: string, value: string)
    | Malformed(line: string)

  /** A trimmed line the comment test skips.  ini.go tests
      `skipCommits && line[0] == ';' || line[0] == '#'`, which Go groups as
      `(skipCommits && ';') || '#'`: a '#' line is a comment whatever the flag. */
  predicate IsCommentLine(line: string, skipCommits: bool) {
    line != [] && ((skipCommits && line[0] == ';') || line[0] == '#')
  }

  /** A trimmed line read as a section header. */
  predicate IsHeaderLine(line: string, parseSection: bool) {
    parseSection && |line| >= 2 && line[0] == '[' && line[|line| - 1] == ']'
  }

  /** The classification of one raw line, with ini.go's tests in its order:
      blank, comment, section header, key/value pair; anything else is
      malformed. */
  function Classify(raw: string, kvsep: string, parseSection: bool, skipCommits: bool): (r: LineKind)
    ensures r == Blank <==> TrimSpace(raw) == []
    ensures r.Malformed? ==> r.line == TrimSpace(raw) && Index(r.line, kvsep) == -1
    ensures r.Pair? ==> Trimmed(r.key) && Trimmed(r.value)
  {
    ClassifyTrimmed(TrimSpace(raw), kvsep, parseSection, skipCommits)
  }

  /** The same tests on a line already trimmed. */
  function ClassifyTrimmed(line: string, kvsep: string, parseSection: bool, skipCommits: bool): LineKind
  {
    var size := |line|;
    if size == 0 then Blank
    else if (skipCommits && line[0] == ';') || line[0] == '#' then Comment
    else if parseSection && line[0] == '[' && line[size - 1] == ']' then Header(line[1..size - 1])
    else
      var pos := Index(line, kvsep);
      if pos < 0 then Malformed(line)
      else Pair(TrimSpace(line[..pos]), TrimSpace(line[pos + |kvsep|..]))
  }

  /** A line that is not blank, not a comment and not a header, and holds
      the separator at `pos` first, is the pair around it, both halves
      trimmed. */
  lemma ClassifyPairLine(line: string, kvsep: string, parseSection: bool, skipCommits: bool, pos: int)
    requires line != [] && !((skipCommits && line[0] == ';') || line[0] == '#')
    requires !(parseSection && line[0] == '[' && line[|line| - 1] == ']')
    requires 0 <= pos && pos == Index(line, kvsep)
    ensures ClassifyTrimmed(line, kvsep, parseSection, skipCommits) ==
      Pair(TrimSpace(line[..pos]), TrimSpace(line[pos + |kvsep|..]))
  {
  }

  /** The classification rules, each in both directions: blank lines, the
      asymmetric comment rule, headers only when section parsing is on, and
      malformed exactly when the separator occurs nowhere in the line. */
  lemma ClassifyRules(raw: string, kvsep: string, parseSection: bool, skipCommits: bool)
    ensures var r := Classify(raw, kvsep, parseSection, skipCommits);
      var line := TrimSpace(raw);
      && (r == Blank <==> line == [])
      && (r == Comment <==> IsCommentLine(line, skipCommits))
      && (r.Header? <==> !IsCommentLine(line, skipCommits) && IsHeaderLine(line, parseSection))
      && (r.Header? ==> r.name == line[1..|line| - 1])
      && (r.Malformed? <==> line != [] && !IsCommentLine(line, skipCommits) && !IsHeaderLine(line, parseSection)
                            && forall j :: !OccursAt(line, kvsep, j))
      && (r.Malformed? ==> r.line == line)
      && (r.Pair? ==> Trimmed(r.key) && Trimmed(r.value))
  {
  }

  /** A key/value line is split at the FIRST occurrence of the separator, so
      the value may itself contain the separator; both halves are trimmed. */
  lemma PairSplitsAtFirstSeparator(raw: string, kvsep: string, parseSection: bool, skipCommits: bool, pos: int)
    requires Classify(raw, kvsep, parseSection, skipCommits).Pair?
    requires OccursAt(TrimSpace(raw), kvsep, pos)
    requires forall j | 0 <= j < pos :: !OccursAt(TrimSpace(raw), kvsep, j)
    ensures var line := TrimSpace(raw);
      Classify(raw, kvsep, parseSection, skipCommits)
        == Pair(TrimSpace(line[..pos]), TrimSpace(line[pos + |kvsep|..]))
  {
    IndexIsFirst(TrimSpace(raw), kvsep, pos);
  }

  /** `k + kvsep + v` is a line that reads back as the pair (k, v): both
      halves trimmed, the whole line non-empty, trimmed and neither a comment nor a
      header, and the first occurrence of the separator right after `k`. */
  predicate WritablePair(k: string, v: string, kvsep: string, parseSection: bool, skipCommits: bool)
  {
    var line := k + kvsep + v;
    && Trimmed(k) && Trimmed(v) && Trimmed(line) && line != []
    && !IsCommentLine(line, skipCommits) && !IsHeaderLine(line, parseSection)
    && Index(k + kvsep, kvsep) == |k|
  }

  /** A line the writer emits for a writable pair is read back as that pair. */
  lemma ClassifyWrittenPair(k: string, v: string, kvsep: string, parseSection: bool, skipCommits: bool)
    requires WritablePair(k, v, kvsep, parseSection, skipCommits)
    ensures Classify(k + kvsep + v, kvsep, parseSection, skipCommits) == Pair(k, v)
  {
    var line := k + kvsep + v;
    WrittenPairCut(k, v, kvsep);
    assert !(parseSection && line[0] == '[' && line[|line| - 1] == ']') by {
      assert !IsHeaderLine(line, parseSection);
    }
    ClassifyPairLine(line, kvsep, parseSection, skipCommits, |k|);
    assert TrimSpace(k) == k && TrimSpace(v) == v;
  }

  /** The first separator of `k + kvsep + v` follows the key when it
      follows the key in `k + kvsep`. */
  lemma WrittenPairCut(k: string, v: string, kvsep: string)
    requires Index(k + kvsep, kvsep) == |k|
    ensures var line := k + kvsep + v;
      Index(line, kvsep) == |k| && line[..|k|] == k && line[|k| + |kvsep|..] == v
  {
    var line := k + kvsep + v;
    assert line == (k + kvsep) + v;
    IndexOfExtension(k + kvsep, v, kvsep);
  }

  /** A section header line reads back as that header whatever the name. */
  lemma ClassifyWrittenHeader(name: string, kvsep: string, skipCommits: bool)
    ensures Classify("[" + name + "]", kvsep, true, skipCommits) == Header(name)
  {
    var line := "[" + name + "]";
    assert Trimmed(line);
    assert line[1..|line| - 1] == name;
  }

  /** The error message parseINI returns for a malformed line. */
  function MalformedMessage(line: string): (r: string)
    ensures 24 + |line| < |r| && r[24..24 + |line|] == line
  {
    "Came accross an error : " + line + " is NOT a valid key/value pair"
  }

  /** Where a parse ended: the sections, the current section name, and the
      error (None when every line was read). */
  datatype ParseResult = ParseResult(sections: SectionMap, section: string, err: Option<string>)

  /** The classification of every line, in order. */
  function ClassifyAll(lines: seq<string>, kvsep: string, parseSection: bool, skipCommits: bool): (r: seq<LineKind>)
    ensures |r| == |lines|
  {
    if lines == [] then [] else [Classify(lines[0], kvsep, parseSection, skipCommits)] + ClassifyAll(lines[1..], kvsep, parseSection, skipCommits)
  }

  /** The `i`-th kind is the classification of the `i`-th line. */
  lemma {:induction false} ClassifyAllAt(lines: seq<string>, kvsep: string, parseSection: bool, skipCommits: bool, i: int)
    requires 0 <= i < |lines|
    ensures ClassifyAll(lines, kvsep, parseSection, skipCommits)[i] == Classify(lines[i], kvsep, parseSection, skipCommits)
  {
    if i > 0 {
      ClassifyAllAt(lines[1..], kvsep, parseSection, skipCommits, i - 1);
    }
  }

  lemma ClassifyAllEach(lines: seq<string>, kvsep: string, parseSection: bool, skipCommits: bool)
    ensures forall i | 0 <= i < |lines| ::
      ClassifyAll(lines, kvsep, parseSection, skipCommits)[i] == Classify(lines[i], kvsep, parseSection, skipCommits)
  {
    forall i | 0 <= i < |lines|
      ensures ClassifyAll(lines, kvsep, parseSection, skipCommits)[i] == Classify(lines[i], kvsep, parseSection, skipCommits)
    {
      ClassifyAllAt(lines, kvsep, parseSection, skipCommits, i);
    }
  }

  /** Reads classified lines in order into `secs`, storing pairs into section
      `cur`.  A header installs an empty map under its name (replacing any
      section of that name) and makes it current; a later duplicate key
      overwrites; the first malformed line stops the parse with the pairs
      before it kept. */
  function ParseKinds(kinds: seq<LineKind>, secs: SectionMap, cur: string): (r: ParseResult)
    requires cur in secs
    ensures secs.Keys <= r.sections.Keys && r.section in r.sections
  {
    if kinds == [] then ParseResult(secs, cur, None)
    else
      match kinds[0]
      case Blank => ParseKinds(kinds[1..], secs, cur)
      case Comment => ParseKinds(kinds[1..], secs, cur)
      case Header(name) => ParseKinds(kinds[1..], secs[name := map[]], name)
      case Pair(k, v) => ParseKinds(kinds[1..], secs[cur := secs[cur][k := v]], cur)
      case Malformed(line) => ParseResult(secs, cur, Some(MalformedMessage(line)))
  }

  /** parseINI on `data`: split on the line separator, install a fresh default
      section, then read the lines. */
  function ParseData(secs: SectionMap, data: string, linesep: string, kvsep: string,
                     parseSection: bool, skipCommits: bool): (r: ParseResult)
    ensures DefaultSection in r.sections && secs.Keys <= r.sections.Keys
  {
    ParseKinds(ClassifyAll(Split(data, linesep), kvsep, parseSection, skipCommits),
               secs[DefaultSection := map[]], DefaultSection)
  }

  /** One step of the parse, from line `i`: what each kind of line does. */
  lemma ParseStep(kinds: seq<LineKind>, i: int, secs: SectionMap, cur: string)
    requires cur in secs && 0 <= i < |kinds|
    ensures kinds[i].Blank? || kinds[i].Comment? ==>
      ParseKinds(kinds[i..], secs, cur) == ParseKinds(kinds[i + 1..], secs, cur)
    ensures kinds[i].Header? ==>
      ParseKinds(kinds[i..], secs, cur) == ParseKinds(kinds[i + 1..], secs[kinds[i].name := map[]], kinds[i].name)
    ensures kinds[i].Pair? ==>
      ParseKinds(kinds[i..], secs, cur)
        == ParseKinds(kinds[i + 1..], secs[cur := secs[cur][kinds[i].key := kinds[i].value]], cur)
    ensures kinds[i].Malformed? ==>
      ParseKinds(kinds[i..], secs, cur) == ParseResult(secs, cur, Some(MalformedMessage(kinds[i].line)))
  {
    assert kinds[i..][0] == kinds[i] && kinds[i..][1..] == kinds[i + 1..];
  }

  /** One step of parseINI's loop on a blank or comment line `lines[i]`,
      trimmed to `line`: nothing changes. */
  lemma ReadLineSkip(kinds: seq<LineKind>, lines: seq<string>, i: int, kvsep: string, parseSection: bool,
                     skipCommits: bool, secs: SectionMap, cur: string, line: string)
    requires cur in secs && 0 <= i < |lines| && kinds == ClassifyAll(lines, kvsep, parseSection, skipCommits)
    requires line == TrimSpace(lines[i])
    requires line == [] || (skipCommits && line[0] == ';') || line[0] == '#'
    ensures ParseKinds(kinds[i..], secs, cur) == ParseKinds(kinds[i + 1..], secs, cur)
  {
    ClassifyAllAt(lines, kvsep, parseSection, skipCommits, i);
    assert kinds[i] == ClassifyTrimmed(line, kvsep, parseSection, skipCommits);
    ParseStep(kinds, i, secs, cur);
  }

  /** One step of parseINI's loop on a header line: the bracketed name
      becomes the current section, replacing any section of that name by an
      empty one. */
  lemma ReadLineHeader(kinds: seq<LineKind>, lines: seq<string>, i: int, kvsep: string, parseSection: bool,
                       skipCommits: bool, secs: SectionMap, cur: string, line: string)
    requires cur in secs && 0 <= i < |lines| && kinds == ClassifyAll(lines, kvsep, parseSection, skipCommits)
    requires line == TrimSpace(lines[i])
    requires line != [] && !((skipCommits && line[0] == ';') || line[0] == '#')
    requires parseSection && line[0] == '[' && line[|line| - 1] == ']'
    ensures ParseKinds(kinds[i..], secs, cur) ==
      ParseKinds(kinds[i + 1..], secs[line[1..|line| - 1] := map[]], line[1..|line| - 1])
  {
    ClassifyAllAt(lines, kvsep, parseSection, skipCommits, i);
    assert kinds[i] == ClassifyTrimmed(line, kvsep, parseSection, skipCommits);
    ParseStep(kinds, i, secs, cur);
  }

  /** One step of parseINI's loop on a line that is not blank, not a
      comment and not a header, and holds no separator: the parse stops with
      the line's error. */
  lemma ReadLineMalformed(kinds: seq<LineKind>, lines: seq<string>, i: int, kvsep: string, parseSection: bool,
                          skipCommits: bool, secs: SectionMap, cur: string, line: string)
    requires cur in secs && 0 <= i < |lines| && kinds == ClassifyAll(lines, kvsep, parseSection, skipCommits)
    requires line == TrimSpace(lines[i])
    requires line != [] && !((skipCommits && line[0] == ';') || line[0] == '#')
    requires !(parseSection && line[0] == '[' && line[|line| - 1] == ']')
    requires Index(line, kvsep) < 0
    ensures ParseKinds(kinds[i..], secs, cur) == ParseResult(secs, cur, Some(MalformedMessage(line)))
  {
    ClassifyAllAt(lines, kvsep, parseSection, skipCommits, i);
    assert kinds[i] == ClassifyTrimmed(line, kvsep, parseSection, skipCommits);
    ParseMalformedStep(kinds, i, secs, cur, line);
  }

  /** One step of parseINI's loop on a line that is not blank, not a
      comment and not a header, and holds the separator: the pair split at
      its first occurrence, both halves trimmed, is stored into the current
      section. */
  lemma ReadLineKeyValue(kinds: seq<LineKind>, lines: seq<string>, i: int, kvsep: string, parseSection: bool,
                         skipCommits: bool, secs: SectionMap, cur: string, line: string, pos: int, k: string, v: string)
    requires cur in secs && 0 <= i < |lines| && kinds == ClassifyAll(lines, kvsep, parseSection, skipCommits)
    requires line == TrimSpace(lines[i]) && pos == Index(line, kvsep)
    requires line != [] && !((skipCommits && line[0] == ';') || line[0] == '#')
    requires !(parseSection && line[0] == '[' && line[|line| - 1] == ']')
    requires 0 <= pos && k == TrimSpace(line[..pos]) && v == TrimSpace(line[pos + |kvsep|..])
    ensures ParseKinds(kinds[i..], secs, cur) == ParseKinds(kinds[i + 1..], secs[cur := secs[cur][k := v]], cur)
  {
    ClassifyAllAt(lines, kvsep, parseSection, skipCommits, i);
    assert kinds[i] == ClassifyTrimmed(line, kvsep, parseSection, skipCommits);
    ClassifyPairLine(line, kvsep, parseSection, skipCommits, pos);
    ParsePairStep(kinds, i, secs, cur, k, v);
  }

  lemma ParseMalformedStep(kinds: seq<LineKind>, i: int, secs: SectionMap, cur: string, line: string)
    requires cur in secs && 0 <= i < |kinds| && kinds[i] == Malformed(line)
    ensures ParseKinds(kinds[i..], secs, cur) == ParseResult(secs, cur, Some(MalformedMessage(line)))
  {
    assert kinds[i..][0] == kinds[i];
  }

  lemma ParsePairStep(kinds: seq<LineKind>, i: int, secs: SectionMap, cur: string, k: string, v: string)
    requires cur in secs && 0 <= i < |kinds| && kinds[i] == Pair(k, v)
    ensures ParseKinds(kinds[i..], secs, cur) == ParseKinds(kinds[i + 1..], secs[cur := secs[cur][k := v]], cur)
  {
    assert kinds[i..][0] == kinds[i] && kinds[i..][1..] == kinds[i + 1..];
  }

  /** Reading `a + b` is reading `a`, then, unless `a` failed, reading `b`
      from where `a` ended. */
  lemma {:induction false} ParseAppend(a: seq<LineKind>, b: seq<LineKind>, secs: SectionMap, cur: string)
    requires cur in secs
    ensures var ra := ParseKinds(a, secs, cur);
      ParseKinds(a + b, secs, cur) == if ra.err.Some? then ra else ParseKinds(b, ra.sections, ra.section)
  {
    if a != [] {
      assert (a + b)[0] == a[0] && (a + b)[1..] == a[1..] + b;
      match a[0]
      case Blank => ParseAppend(a[1..], b, secs, cur);
      case Comment => ParseAppend(a[1..], b, secs, cur);
      case Header(name) => ParseAppend(a[1..], b, secs[name := map[]], name);
      case Pair(k, v) => ParseAppend(a[1..], b, secs[cur := secs[cur][k := v]], cur);
      case Malformed(line) =>
    } else {
      assert a + b == b;
    }
  }

  /** A parse fails exactly when some line is malformed. */
  lemma {:induction false} ParseSucceedsIff(kinds: seq<LineKind>, secs: SectionMap, cur: string)
    requires cur in secs
    ensures ParseKinds(kinds, secs, cur).err.None? <==> forall i | 0 <= i < |kinds| :: !kinds[i].Malformed?
  {
    if kinds != [] {
      assert forall i | 1 <= i < |kinds| :: kinds[i] == kinds[1..][i - 1];
      match kinds[0]
      case Blank => ParseSucceedsIff(kinds[1..], secs, cur);
      case Comment => ParseSucceedsIff(kinds[1..], secs, cur);
      case Header(name) => ParseSucceedsIff(kinds[1..], secs[name := map[]], name);
      case Pair(k, v) => ParseSucceedsIff(kinds[1..], secs[cur := secs[cur][k := v]], cur);
      case Malformed(line) =>
    }
  }

  /** The first malformed line ends the parse with its error message, and the
      sections hold everything read before it. */
  lemma ParseStopsAtFirstMalformed(kinds: seq<LineKind>, secs: SectionMap, cur: string, i: int)
    requires cur in secs && 0 <= i < |kinds| && kinds[i].Malformed?
    requires forall j | 0 <= j < i :: !kinds[j].Malformed?
    ensures var before := ParseKinds(kinds[..i], secs, cur);
      ParseKinds(kinds, secs, cur)
        == ParseResult(before.sections, before.section, Some(MalformedMessage(kinds[i].line)))
  {
    ParseSucceedsIff(kinds[..i], secs, cur);
    ParseAppend(kinds[..i], kinds[i..], secs, cur);
    assert kinds[..i] + kinds[i..] == kinds;
    assert kinds[i..][0] == kinds[i];
  }

  /** A blank line (an empty piece between repeated separators, or white
      space only) changes nothing. */
  lemma SkipBlankLine(a: seq<LineKind>, b: seq<LineKind>, secs: SectionMap, cur: string)
    requires cur in secs
    ensures ParseKinds(a + [Blank] + b, secs, cur) == ParseKinds(a + b, secs, cur)
  {
    ParseAppend(a, [Blank] + b, secs, cur);
    ParseAppend(a, b, secs, cur);
    assert a + [Blank] + b == a + ([Blank] + b);
    assert ([Blank] + b)[1..] == b;
  }

  /** The section `t` is the same in both maps (absent from both, or present
      in both with equal contents). */
  predicate SameSection(m1: SectionMap, m2: SectionMap, t: string) {
    (t in m1 <==> t in m2) && (t in m1 ==> m1[t] == m2[t])
  }

  /** What a parse does to the sections it writes (the current one and every
      one it declares) does not depend on what they held before: those are
      fresh maps.  Stated for two starting maps that agree on a set `T` of
      sections containing the current one. */
  lemma {:induction false} ParseWritesFreshSections(kinds: seq<LineKind>, secs1: SectionMap, secs2: SectionMap,
                                                    cur: string, T: set<string>)
    requires cur in secs1 && cur in secs2 && cur in T
    requires forall t | t in T :: SameSection(secs1, secs2, t)
    ensures var r1 := ParseKinds(kinds, secs1, cur);
      var r2 := ParseKinds(kinds, secs2, cur);
      && r1.err == r2.err && r1.section == r2.section
      && forall t | t in T :: SameSection(r1.sections, r2.sections, t)
  {
    if kinds != [] {
      match kinds[0]
      case Blank => ParseWritesFreshSections(kinds[1..], secs1, secs2, cur, T);
      case Comment => ParseWritesFreshSections(kinds[1..], secs1, secs2, cur, T);
      case Header(name) =>
        ParseWritesFreshSections(kinds[1..], secs1[name := map[]], secs2[name := map[]], name, T + {name});
      case Pair(k, v) =>
        ParseWritesFreshSections(kinds[1..], secs1[cur := secs1[cur][k := v]], secs2[cur := secs2[cur][k := v]], cur, T);
      case Malformed(line) =>
    }
  }

  /** parseINI starts the default section afresh: whatever the document held
      before, the default section afterwards, and the error, depend only on
      the input. */
  lemma DefaultSectionIsFresh(secs1: SectionMap, secs2: SectionMap, data: string, linesep: string, kvsep: string,
                              parseSection: bool, skipCommits: bool)
    ensures var r1 := ParseData(secs1, data, linesep, kvsep, parseSection, skipCommits);
      var r2 := ParseData(secs2, data, linesep, kvsep, parseSection, skipCommits);
      r1.err == r2.err && r1.sections[DefaultSection] == r2.sections[DefaultSection]
  {
    ParseWritesFreshSections(ClassifyAll(Split(data, linesep), kvsep, parseSection, skipCommits),
                             secs1[DefaultSection := map[]], secs2[DefaultSection := map[]],
                             DefaultSection, {DefaultSection});
  }

  /** A section other than the current one that no line redeclares is left
      exactly as it was. */
  lemma {:induction false} ParseKeepsUndeclared(kinds: seq<LineKind>, secs: SectionMap, cur: string, s: string)
    requires cur in secs && s != cur
    requires forall j | 0 <= j < |kinds| :: kinds[j] != Header(s)
    ensures SameSection(ParseKinds(kinds, secs, cur).sections, secs, s)
  {
    if kinds != [] {
      assert kinds[0] != Header(s);
      assert forall j | 0 <= j < |kinds| - 1 :: kinds[1..][j] == kinds[j + 1];
      match kinds[0]
      case Blank => ParseKeepsUndeclared(kinds[1..], secs, cur, s);
      case Comment => ParseKeepsUndeclared(kinds[1..], secs, cur, s);
      case Header(name) => ParseKeepsUndeclared(kinds[1..], secs[name := map[]], name, s);
      case Pair(k, v) => ParseKeepsUndeclared(kinds[1..], secs[cur := secs[cur][k := v]], cur, s);
      case Malformed(line) =>
    }
  }

  /** Named sections of earlier parses that the input does not redeclare
      survive a parse untouched. */
  lemma ParseDataKeepsUndeclared(secs: SectionMap, data: string, linesep: string, kvsep: string,
                                 parseSection: bool, skipCommits: bool, s: string)
    requires s != DefaultSection
    requires forall line | line in Split(data, linesep) :: Classify(line, kvsep, parseSection, skipCommits) != Header(s)
    ensures SameSection(ParseData(secs, data, linesep, kvsep, parseSection, skipCommits).sections, secs, s)
  {
    var lines := Split(data, linesep);
    var kinds := ClassifyAll(lines, kvsep, parseSection, skipCommits);
    assert forall j | 0 <= j < |kinds| :: kinds[j] != Header(s) by {
      forall j | 0 <= j < |kinds| ensures kinds[j] != Header(s) {
        ClassifyAllAt(lines, kvsep, parseSection, skipCommits, j);
        assert lines[j] in lines;
      }
    }
    ParseKeepsUndeclared(kinds, secs[DefaultSection := map[]], DefaultSection, s);
  }

  /** A pair `k -> v` already current survives lines that neither switch
      section nor mention `k` again. */
  lemma {:induction false} PairSurvives(kinds: seq<LineKind>, secs: SectionMap, cur: string, k: string, v: string)
    requires cur in secs && k in secs[cur] && secs[cur][k] == v
    requires forall j | 0 <= j < |kinds| :: !kinds[j].Header? && !(kinds[j].Pair? && kinds[j].key == k)
    ensures var r := ParseKinds(kinds, secs, cur);
      r.section == cur && k in r.sections[cur] && r.sections[cur][k] == v
  {
    if kinds != [] {
      assert forall j | 0 <= j < |kinds| - 1 :: kinds[1..][j] == kinds[j + 1];
      match kinds[0]
      case Blank => PairSurvives(kinds[1..], secs, cur, k, v);
      case Comment => PairSurvives(kinds[1..], secs, cur, k, v);
      case Pair(k', v') => PairSurvives(kinds[1..], secs[cur := secs[cur][k' := v']], cur, k, v);
      case Malformed(line) =>
    }
  }

  /** Duplicate keys: the last pair line for a key, with no header after it,
      gives the key's value in the section current at that line. */
  lemma LastPairWins(kinds: seq<LineKind>, secs: SectionMap, cur: string, i: int)
    requires cur in secs && 0 <= i < |kinds| && kinds[i].Pair?
    requires forall j | i < j < |kinds| :: !kinds[j].Header? && !(kinds[j].Pair? && kinds[j].key == kinds[i].key)
    requires ParseKinds(kinds[..i], secs, cur).err.None?
    ensures var before := ParseKinds(kinds[..i], secs, cur);
      var r := ParseKinds(kinds, secs, cur);
      r.section == before.section && kinds[i].key in r.sections[r.section]
      && r.sections[r.section][kinds[i].key] == kinds[i].value
  {
    var p := kinds[i];
    var before := ParseKinds(kinds[..i], secs, cur);
    ParseAppend(kinds[..i], kinds[i..], secs, cur);
    assert kinds[..i] + kinds[i..] == kinds;
    assert kinds[i..][0] == p && kinds[i..][1..] == kinds[i + 1..];
    var c := before.section;
    var after := before.sections[c := before.sections[c][p.key := p.value]];
    PairSurvives(kinds[i + 1..], after, c, p.key, p.value);
  }

  lemma AppextPieces()
    ensures TrimSpace("appext=ab=cd") == "appext=ab=cd"
    ensures TrimSpace("appext") == "appext" && TrimSpace("ab=cd") == "ab=cd"
  {
    assert Trimmed("appext=ab=cd") && Trimmed("appext") && Trimmed("ab=cd");
  }

  lemma AppextSeparator()
    ensures Index("appext=ab=cd", "=") == 6
  {
    var raw := "appext=ab=cd";
    assert raw[6..7] == "=";
    forall j | 0 <= j < 6 ensures !OccursAt(raw, "=", j) {
      assert raw[j..j + 1][0] == raw[j] != '=';
    }
    IndexIsFirst(raw, "=", 6);
  }

  /** A test vector of the test program: `appext=ab=cd` is the key
      `appext` with the value `ab=cd`. */
  lemma AppextExample(parseSection: bool, skipCommits: bool)
    ensures Classify("appext=ab=cd", "=", parseSection, skipCommits) == Pair("appext", "ab=cd")
  {
    AppextPieces();
    AppextSeparator();
    var raw := "appext=ab=cd";
    assert raw[..6] == "appext";
    assert raw[7..] == "ab=cd";
  }
}
