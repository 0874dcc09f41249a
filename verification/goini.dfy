/**
 * ini.go's INI object: the parsed sections and the settings the parser
 * uses, updated in place by its methods.  Reading a file goes through a
 * map from path to contents that stands for the file system.
 */
module Goini {
  import opened Wrappers
  import opened Text
  import opened Document
  import Strconv
  import opened Parser
  import opened Serializer

  /** The files a program can read: path to contents. */
  type FileSystem = map<string, string>

  /** The error ioutil.ReadFile reports for a path that does not exist. */
  function ReadFileError(path: string): string {
    "open " + path + ": no such file or directory"
  }

  class Ini {
    var sections: SectionMap
    var linesep: string
    var kvsep: string
    var parseSection: bool
    var skipCommits: bool

    /** New: no sections, the default separators, and both flags off. */
    constructor ()
      ensures sections == map[]
      ensures linesep == DefaultLineSeparator && kvsep == DefaultKeyValueSeparator
      ensures !parseSection && !skipCommits
    {
      sections := map[];
      linesep := DefaultLineSeparator;
      kvsep := DefaultKeyValueSeparator;
      parseSection := false;
      skipCommits := false;
    }

    /** ParseFile: a missing file is reported and changes nothing; otherwise
        section parsing and comment skipping are switched on and the
        contents are parsed with the default separators. */
    method ParseFile(fs: FileSystem, filename: string) returns (err: Option<string>)
      modifies this
      ensures filename !in fs ==> err == Some(ReadFileError(filename)) && unchanged(this)
      ensures filename in fs ==>
        && parseSection && skipCommits
        && linesep == DefaultLineSeparator && kvsep == DefaultKeyValueSeparator
        && var r := ParseData(old(sections), fs[filename], DefaultLineSeparator, DefaultKeyValueSeparator, true, true);
           sections == r.sections && err == r.err
    {
      if filename !in fs {
        return Some(ReadFileError(filename));
      }
      parseSection := true;
      skipCommits := true;
      err := ParseIni(fs[filename], DefaultLineSeparator, DefaultKeyValueSeparator);
    }

    /** Parse: parse `data` with the given separators and the current flags. */
    method Parse(data: string, lineSep: string, kvSep: string) returns (err: Option<string>)
      modifies this
      ensures parseSection == old(parseSection) && skipCommits == old(skipCommits)
      ensures linesep == lineSep && kvsep == kvSep
      ensures var r := ParseData(old(sections), data, lineSep, kvSep, parseSection, skipCommits);
        sections == r.sections && err == r.err
    {
      err := ParseIni(data, lineSep, kvSep);
    }

    /** parseINI: record the separators, install a fresh default section,
        then read the lines one by one.  It ends where ParseData says: the
        first malformed line stops it with its error, the pairs before it
        kept. */
    method ParseIni(data: string, lineSep: string, kvSep: string) returns (err: Option<string>)
      modifies this
      ensures parseSection == old(parseSection) && skipCommits == old(skipCommits)
      ensures linesep == lineSep && kvsep == kvSep
      ensures var r := ParseData(old(sections), data, lineSep, kvSep, parseSection, skipCommits);
        sections == r.sections && err == r.err
    {
      linesep := lineSep;
      kvsep := kvSep;
      var secs := sections[DefaultSection := map[]];
      var lines := Split(data, lineSep);
      secs, err := ReadLines(lines, kvSep, parseSection, skipCommits, secs);
      sections := secs;
    }

    /** The loop of parseINI over the lines, starting in the default
        section of `start`. */
    static method ReadLines(lines: seq<string>, kvSep: string, parse: bool, skip: bool, start: SectionMap)
      returns (secs: SectionMap, err: Option<string>)
      requires DefaultSection in start
      ensures var r := ParseKinds(ClassifyAll(lines, kvSep, parse, skip), start, DefaultSection);
        secs == r.sections && err == r.err
    {
      ghost var kinds := ClassifyAll(lines, kvSep, parse, skip);
      ghost var goal := ParseKinds(kinds, start, DefaultSection);
      var section := DefaultSection;
      var kvmap := start[section];
      secs := start;
      var i := 0;
      err := None;
      assert kinds[i..] == kinds;
      while i < |lines|
        invariant 0 <= i <= |lines|
        invariant section in secs && secs[section] == kvmap
        invariant ParseKinds(kinds[i..], secs, section) == goal
        invariant err == None
      {
        var line := TrimSpace(lines[i]);
        var size := |line|;
        if size == 0 {
          // a blank line
          ReadLineSkip(kinds, lines, i, kvSep, parse, skip, secs, section, line);
        } else if (skip && line[0] == ';') || line[0] == '#' {
          // a comment
          ReadLineSkip(kinds, lines, i, kvSep, parse, skip, secs, section, line);
        } else if parse && line[0] == '[' && line[size - 1] == ']' {
          ReadLineHeader(kinds, lines, i, kvSep, parse, skip, secs, section, line);
          section := line[1..size - 1];
          kvmap := map[];
          secs := secs[section := kvmap];
        } else {
          var pos := Index(line, kvSep);
          if pos < 0 {
            ReadLineMalformed(kinds, lines, i, kvSep, parse, skip, secs, section, line);
            err := Some(MalformedMessage(line));
            return;
          }
          var k := TrimSpace(line[..pos]);
          var v := TrimSpace(line[pos + |kvSep|..]);
          ReadLineKeyValue(kinds, lines, i, kvSep, parse, skip, secs, section, line, pos, k, v);
          kvmap := kvmap[k := v];
          secs := secs[section := kvmap];
        }
        assert ParseKinds(kinds[i + 1..], secs, section) == goal;
        i := i + 1;
      }
    }

    /** Reset: drop every section; the settings stay. */
    method Reset()
      modifies this
      ensures sections == map[]
      ensures linesep == old(linesep) && kvsep == old(kvsep)
      ensures parseSection == old(parseSection) && skipCommits == old(skipCommits)
    {
      sections := map[];
    }

    method SetSkipCommits(skip: bool)
      modifies this
      ensures skipCommits == skip
      ensures sections == old(sections) && linesep == old(linesep) && kvsep == old(kvsep)
      ensures parseSection == old(parseSection)
    {
      skipCommits := skip;
    }

    method SetParseSection(parse: bool)
      modifies this
      ensures parseSection == parse
      ensures sections == old(sections) && linesep == old(linesep) && kvsep == old(kvsep)
      ensures skipCommits == old(skipCommits)
    {
      parseSection := parse;
    }

    /** SectionGet: found exactly when the section exists and holds the key;
        the value, or "" when not found. */
    function SectionGet(section: string, key: string): (r: (string, bool))
      reads this
      ensures r.1 <==> section in sections && key in sections[section]
      ensures r.1 ==> r.0 == sections[section][key]
      ensures !r.1 ==> r.0 == ""
    {
      Lookup(sections, section, key)
    }

    /** Get: SectionGet on the default section. */
    function Get(key: string): (r: (string, bool))
      reads this
      ensures r == SectionGet(DefaultSection, key)
      ensures r.1 <==> DefaultSection in sections && key in sections[DefaultSection]
      ensures r.1 ==> r.0 == sections[DefaultSection][key]
      ensures !r.1 ==> r.0 == ""
    {
      SectionGet(DefaultSection, key)
    }

    /** SectionGetInt: the stored value read by strconv.Atoi; a value Atoi
        rejects still reports presence, with 0. */
    function SectionGetInt(section: string, key: string): (r: (int, bool))
      reads this
      ensures r.1 <==> section in sections && key in sections[section]
      ensures r.1 && Strconv.Atoi(sections[section][key]).Some? ==> r.0 == Strconv.Atoi(sections[section][key]).value
      ensures r.1 && Strconv.Atoi(sections[section][key]).None? ==> r.0 == 0
      ensures !r.1 ==> r.0 == 0
      ensures Strconv.MinInt64 <= r.0 <= Strconv.MaxInt64
    {
      LookupInt(sections, section, key)
    }

    /** GetInt: SectionGetInt on the default section. */
    function GetInt(key: string): (r: (int, bool))
      reads this
      ensures r == SectionGetInt(DefaultSection, key)
      ensures r.1 <==> DefaultSection in sections && key in sections[DefaultSection]
      ensures r.1 && Strconv.Atoi(sections[DefaultSection][key]).Some? ==>
                r.0 == Strconv.Atoi(sections[DefaultSection][key]).value
      ensures r.1 && Strconv.Atoi(sections[DefaultSection][key]).None? ==> r.0 == 0
      ensures !r.1 ==> r.0 == 0
      ensures Strconv.MinInt64 <= r.0 <= Strconv.MaxInt64
    {
      SectionGetInt(DefaultSection, key)
    }

    /** SectionGetBool: one of the twelve true or twelve false literals gives
        that boolean and true; anything else, or nothing stored, gives
        (false, false). */
    function SectionGetBool(section: string, key: string): (r: (bool, bool))
      reads this
      ensures r.1 <==> section in sections && key in sections[section]
                       && sections[section][key] in TrueLiterals + FalseLiterals
      ensures r.0 <==> section in sections && key in sections[section] && sections[section][key] in TrueLiterals
    {
      LookupBool(sections, section, key)
    }

    /** GetBool: SectionGetBool on the default section. */
    function GetBool(key: string): (r: (bool, bool))
      reads this
      ensures r == SectionGetBool(DefaultSection, key)
      ensures r.1 <==> DefaultSection in sections && key in sections[DefaultSection]
                       && sections[DefaultSection][key] in TrueLiterals + FalseLiterals
      ensures r.0 <==> DefaultSection in sections && key in sections[DefaultSection]
                       && sections[DefaultSection][key] in TrueLiterals
      ensures r.0 ==> r.1
    {
      SectionGetBool(DefaultSection, key)
    }

    /** GetKvmap: the section's key map and true, or an empty map and false. */
    function GetKvmap(section: string): (r: (Kvmap, bool))
      reads this
      ensures r.1 <==> section in sections
      ensures r.1 ==> r.0 == sections[section]
      ensures !r.1 ==> r.0 == map[]
    {
      (SectionOf(sections, section), section in sections)
    }

    /** GetAll: the object's own section map, empty sections included. */
    function GetAll(): (r: SectionMap)
      reads this
      ensures r == sections
      ensures forall s, k :: Lookup(r, s, k) == SectionGet(s, k)
    {
      sections
    }

    /** SectionSet: creates the section if absent and upserts the key; every
        other (section, key) reads as before and the settings stay. */
    method SectionSet(section: string, key: string, value: string)
      modifies this
      ensures sections == WithValue(old(sections), section, key, value)
      ensures SectionGet(section, key) == (value, true)
      ensures forall s, k | s != section || k != key :: SectionGet(s, k) == old(SectionGet(s, k))
      ensures linesep == old(linesep) && kvsep == old(kvsep)
      ensures parseSection == old(parseSection) && skipCommits == old(skipCommits)
    {
      if section !in sections {
        sections := sections[section := map[]];
      }
      sections := sections[section := sections[section][key := value]];
    }

    method Set(key: string, value: string)
      modifies this
      ensures sections == WithValue(old(sections), DefaultSection, key, value)
      ensures Get(key) == (value, true)
      ensures linesep == old(linesep) && kvsep == old(kvsep)
      ensures parseSection == old(parseSection) && skipCommits == old(skipCommits)
    {
      SectionSet(DefaultSection, key, value);
    }

    /** SectionSetInt: stores strconv.Itoa of a Go int, which SectionGetInt reads back. */
    method SectionSetInt(section: string, key: string, value: Strconv.Int64)
      modifies this
      ensures sections == WithValue(old(sections), section, key, Strconv.Itoa(value))
      ensures SectionGetInt(section, key) == (value, true)
      ensures linesep == old(linesep) && kvsep == old(kvsep)
      ensures parseSection == old(parseSection) && skipCommits == old(skipCommits)
    {
      SectionSet(section, key, Strconv.Itoa(value));
      IntReadsBack(old(sections), section, key, value);
    }

    method SetInt(key: string, value: Strconv.Int64)
      modifies this
      ensures sections == WithValue(old(sections), DefaultSection, key, Strconv.Itoa(value))
      ensures GetInt(key) == (value, true)
      ensures linesep == old(linesep) && kvsep == old(kvsep)
      ensures parseSection == old(parseSection) && skipCommits == old(skipCommits)
    {
      SectionSetInt(DefaultSection, key, value);
    }

    /** SectionSetBool: stores "true" or "false", which SectionGetBool reads back. */
    method SectionSetBool(section: string, key: string, value: bool)
      modifies this
      ensures sections == WithValue(old(sections), section, key, BoolText(value))
      ensures SectionGetBool(section, key) == (value, true)
      ensures linesep == old(linesep) && kvsep == old(kvsep)
      ensures parseSection == old(parseSection) && skipCommits == old(skipCommits)
    {
      var s := "false";
      if value {
        s := "true";
      }
      SectionSet(section, key, s);
    }

    method SetBool(key: string, value: bool)
      modifies this
      ensures sections == WithValue(old(sections), DefaultSection, key, BoolText(value))
      ensures GetBool(key) == (value, true)
      ensures linesep == old(linesep) && kvsep == old(kvsep)
      ensures parseSection == old(parseSection) && skipCommits == old(skipCommits)
    {
      SectionSetBool(DefaultSection, key, value);
    }

    /** Delete: removes the key from an existing section, which stays even if
        now empty; an absent section is left alone. */
    method Delete(section: string, key: string)
      modifies this
      ensures sections == WithoutKey(old(sections), section, key)
      ensures sections.Keys == old(sections).Keys
      ensures SectionGet(section, key) == ("", false)
      ensures forall s, k | s != section || k != key :: SectionGet(s, k) == old(SectionGet(s, k))
      ensures linesep == old(linesep) && kvsep == old(kvsep)
      ensures parseSection == old(parseSection) && skipCommits == old(skipCommits)
    {
      var (kv, ok) := GetKvmap(section);
      if ok {
        sections := sections[section := kv - {key}];
      }
    }

    /** write: one line `k + kvsep + v` per pair of `kv`, in some order of its keys. */
    method WriteKvmap(kv: Kvmap) returns (text: string, ghost keys: seq<string>)
      ensures IsOrdering(keys, kv.Keys)
      ensures text == Terminated(PairLines(kv, keys, kvsep), linesep)
    {
      text := "";
      keys := [];
      var remaining := kv.Keys;
      while remaining != {}
        invariant remaining <= kv.Keys
        invariant forall i | 0 <= i < |keys| :: keys[i] in kv.Keys - remaining
        invariant forall x | x in kv.Keys - remaining :: x in keys
        invariant forall i, j | 0 <= i < j < |keys| :: keys[i] != keys[j]
        invariant text == Terminated(PairLines(kv, keys, kvsep), linesep)
        decreases |remaining|
      {
        var k :| k in remaining;
        ghost var before := keys;
        text := text + k + kvsep + kv[k] + linesep;
        keys := keys + [k];
        remaining := remaining - {k};
        assert PairLines(kv, keys, kvsep) == PairLines(kv, before, kvsep) + [PairLine(k, kv[k], kvsep)];
        TerminatedAppend(PairLines(kv, before, kvsep), [PairLine(k, kv[k], kvsep)], linesep);
      }
    }

    /** Write: the default section's pairs first, without a header, then each
        named section as its header line followed by its pairs, every line
        ended by the line separator.  The order of the sections and of the
        keys is whatever the map iteration gives; `order` and `keyOrders`
        record the one chosen. */
    method Write() returns (out: string, ghost order: seq<string>, ghost keyOrders: map<string, seq<string>>)
      ensures ValidLayout(sections, order, keyOrders)
      ensures out == Render(sections, order, keyOrders, kvsep, linesep)
    {
      out := "";
      keyOrders := map[];
      ghost var head: seq<string> := [];
      if DefaultSection in sections {
        var text, keys := WriteKvmap(sections[DefaultSection]);
        out := text;
        keyOrders := map[DefaultSection := keys];
        head := PairLines(sections[DefaultSection], keys, kvsep);
      }
      var named := sections.Keys - {DefaultSection};
      order := [];
      var remaining := named;
      assert head + NamedBlocks(sections, order, keyOrders, kvsep) == head;
      while remaining != {}
        invariant WriteProgress(sections, named, remaining, order, keyOrders, head, out, kvsep, linesep)
        decreases |remaining|
      {
        var s :| s in remaining;
        var text, keys := WriteKvmap(sections[s]);
        WriteStep(sections, named, remaining, order, keyOrders, head, out, kvsep, linesep, s, keys, text);
        out := out + ("[" + s + "]" + linesep) + text;
        keyOrders := keyOrders[s := keys];
        order := order + [s];
        remaining := remaining - {s};
      }
      WriteDone(sections, named, order, keyOrders, head, out, kvsep, linesep);
    }
  }

  /** Part way through Write: the sections of `named` not in `remaining`
      have been written, in `order`, after the default section's lines `head`. */
  predicate WriteProgress(secs: SectionMap, named: set<string>, remaining: set<string>, order: seq<string>,
                          keyOrders: map<string, seq<string>>, head: seq<string>, out: string,
                          kvsep: string, linesep: string)
  {
    && named == secs.Keys - {DefaultSection}
    && remaining <= named
    && IsOrdering(order, named - remaining)
    && KeyOrdersValid(secs, keyOrders)
    && (forall x | x in named - remaining :: x in keyOrders)
    && (DefaultSection in secs <==> DefaultSection in keyOrders)
    && (DefaultSection in secs ==> head == PairLines(secs[DefaultSection], keyOrders[DefaultSection], kvsep))
    && (DefaultSection !in secs ==> head == [])
    && out == Terminated(head + NamedBlocks(secs, order, keyOrders, kvsep), linesep)
  }

  /** Writing section `s` (its header, then its pairs in the order `keys`) moves it from `remaining` to the end of `order`. */
  lemma WriteStep(secs: SectionMap, named: set<string>, remaining: set<string>, order: seq<string>,
                  keyOrders: map<string, seq<string>>, head: seq<string>, out: string, kvsep: string, linesep: string,
                  s: string, keys: seq<string>, text: string)
    requires WriteProgress(secs, named, remaining, order, keyOrders, head, out, kvsep, linesep)
    requires s in remaining && IsOrdering(keys, secs[s].Keys)
    requires text == Terminated(PairLines(secs[s], keys, kvsep), linesep)
    ensures WriteProgress(secs, named, remaining - {s}, order + [s], keyOrders[s := keys], head,
                          out + ("[" + s + "]" + linesep) + text, kvsep, linesep)
  {
    AppendNamedBlock(secs, head, order, keyOrders, s, keys, kvsep, linesep);
    OrderingExtend(order, named - remaining, s);
    assert named - (remaining - {s}) == (named - remaining) + {s};
  }

  /** Once no section remains, the layout chosen is complete and the text is its rendering. */
  lemma WriteDone(secs: SectionMap, named: set<string>, order: seq<string>,
                  keyOrders: map<string, seq<string>>, head: seq<string>, out: string, kvsep: string, linesep: string)
    requires WriteProgress(secs, named, {}, order, keyOrders, head, out, kvsep, linesep)
    ensures ValidLayout(secs, order, keyOrders)
    ensures out == Render(secs, order, keyOrders, kvsep, linesep)
  {
    assert named - {} == named;
    forall x | x in secs ensures x in keyOrders {
      if x != DefaultSection {
        assert x in named - {};
      }
    }
  }

  /** Every key order recorded belongs to a section and lists its keys. */
  predicate KeyOrdersValid(secs: SectionMap, keyOrders: map<string, seq<string>>) {
    forall s | s in keyOrders :: s in secs && IsOrdering(keyOrders[s], secs[s].Keys)
  }

  lemma OrderingExtend(order: seq<string>, done: set<string>, s: string)
    requires IsOrdering(order, done) && s !in done
    ensures IsOrdering(order + [s], done + {s})
  {
  }

  /** Writing one more named section appends its header line and its pair lines. */
  lemma AppendNamedBlock(secs: SectionMap, head: seq<string>, order: seq<string>, keyOrders: map<string, seq<string>>,
                         s: string, keys: seq<string>, kvsep: string, linesep: string)
    requires forall i | 0 <= i < |order| :: order[i] in secs && order[i] in keyOrders && order[i] != s
    requires KeyOrdersValid(secs, keyOrders)
    requires s in secs && IsOrdering(keys, secs[s].Keys)
    ensures KeyOrdersValid(secs, keyOrders[s := keys])
    ensures Terminated(head + NamedBlocks(secs, order, keyOrders, kvsep), linesep) + ("[" + s + "]" + linesep)
              + Terminated(PairLines(secs[s], keys, kvsep), linesep)
            == Terminated(head + NamedBlocks(secs, order + [s], keyOrders[s := keys], kvsep), linesep)
  {
    var ko := keyOrders[s := keys];
    var pairs := PairLines(secs[s], keys, kvsep);
    KeyOrdersExtend(secs, keyOrders, s, keys);
    NamedBlocksFrame(secs, order, keyOrders, ko, kvsep);
    NamedBlocksSnoc(secs, order, ko, s, kvsep);
    TerminatedBlock(head, NamedBlocks(secs, order, keyOrders, kvsep), HeaderLine(s), pairs, linesep);
  }

  lemma KeyOrdersExtend(secs: SectionMap, keyOrders: map<string, seq<string>>, s: string, keys: seq<string>)
    requires KeyOrdersValid(secs, keyOrders)
    requires s in secs && IsOrdering(keys, secs[s].Keys)
    ensures KeyOrdersValid(secs, keyOrders[s := keys])
  {
  }

  /** The named blocks for `order + [s]` are those for `order`, then the block of `s`. */
  lemma NamedBlocksSnoc(secs: SectionMap, order: seq<string>, ko: map<string, seq<string>>, s: string, kvsep: string)
    requires forall i | 0 <= i < |order| :: order[i] in secs && order[i] in ko
    requires s in secs && s in ko
    requires KeyOrdersValid(secs, ko)
    ensures NamedBlocks(secs, order + [s], ko, kvsep)
      == NamedBlocks(secs, order, ko, kvsep) + [HeaderLine(s)] + PairLines(secs[s], ko[s], kvsep)
  {
    assert (order + [s])[..|order|] == order;
  }

  /** The named blocks depend only on the key orders of the sections listed. */
  lemma {:induction false} NamedBlocksFrame(secs: SectionMap, order: seq<string>, ko1: map<string, seq<string>>,
                                            ko2: map<string, seq<string>>, kvsep: string)
    requires forall i | 0 <= i < |order| :: order[i] in secs && order[i] in ko1 && order[i] in ko2 && ko1[order[i]] == ko2[order[i]]
    requires forall s | s in secs && s in ko1 :: forall i | 0 <= i < |ko1[s]| :: ko1[s][i] in secs[s]
    requires forall s | s in secs && s in ko2 :: forall i | 0 <= i < |ko2[s]| :: ko2[s][i] in secs[s]
    ensures NamedBlocks(secs, order, ko1, kvsep) == NamedBlocks(secs, order, ko2, kvsep)
  {
    if order != [] {
      NamedBlocksFrame(secs, order[..|order| - 1], ko1, ko2, kvsep);
    }
  }
}
