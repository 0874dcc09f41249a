/**
 * wini.go: the older copy of the parser, with section headers and both
 * comment characters always recognised.  Its object has no flags; its loop
 * tests the hard-wired rules, and what it computes is ini.go's parse with
 * both flags switched on.
 */
module Wini {
  import opened Wrappers
  import opened Text
  import opened Document
  import opened Parser
  import Goini

  class Ini {
    var sections: SectionMap
    var linesep: string
    var kvsep: string

    /** New: no sections and the default separators. */
    constructor ()
      ensures sections == map[]
      ensures linesep == DefaultLineSeparator && kvsep == DefaultKeyValueSeparator
    {
      sections := map[];
      linesep := DefaultLineSeparator;
      kvsep := DefaultKeyValueSeparator;
    }

    /** ParseFile: a missing file is reported and changes nothing; otherwise
        the contents are parsed with the default separators. */
    method ParseFile(fs: Goini.FileSystem, filename: string) returns (err: Option<string>)
      modifies this
      ensures filename !in fs ==> err == Some(Goini.ReadFileError(filename)) && unchanged(this)
      ensures filename in fs ==>
        && linesep == DefaultLineSeparator && kvsep == DefaultKeyValueSeparator
        && var r := ParseData(old(sections), fs[filename], DefaultLineSeparator, DefaultKeyValueSeparator, true, true);
           sections == r.sections && err == r.err
    {
      if filename !in fs {
        return Some(Goini.ReadFileError(filename));
      }
      err := ParseIni(fs[filename], DefaultLineSeparator, DefaultKeyValueSeparator);
    }

    /** Parse: parse `data` with the given separators. */
    method Parse(data: string, lineSep: string, kvSep: string) returns (err: Option<string>)
      modifies this
      ensures linesep == lineSep && kvsep == kvSep
      ensures var r := ParseData(old(sections), data, lineSep, kvSep, true, true);
        sections == r.sections && err == r.err
    {
      err := ParseIni(data, lineSep, kvSep);
    }

    /** parseINI: the same reading as ini.go's with section parsing and
        comment skipping both on, so the sections and the error are those of
        ParseData with both flags true. */
    method ParseIni(data: string, lineSep: string, kvSep: string) returns (err: Option<string>)
      modifies this
      ensures linesep == lineSep && kvsep == kvSep
      ensures var r := ParseData(old(sections), data, lineSep, kvSep, true, true);
        sections == r.sections && err == r.err
    {
      linesep := lineSep;
      kvsep := kvSep;
      var secs := sections[DefaultSection := map[]];
      var lines := Split(data, lineSep);
      secs, err := ReadLines(lines, kvSep, secs);
      sections := secs;
    }

    /** The loop of parseINI over the lines, starting in the default
        section of `start`: blank lines and lines starting with ';' or '#'
        are skipped, a bracketed line always opens a section. */
    static method ReadLines(lines: seq<string>, kvSep: string, start: SectionMap)
      returns (secs: SectionMap, err: Option<string>)
      requires DefaultSection in start
      ensures var r := ParseKinds(ClassifyAll(lines, kvSep, true, true), start, DefaultSection);
        secs == r.sections && err == r.err
    {
      ghost var kinds := ClassifyAll(lines, kvSep, true, true);
      ghost var goal := ParseKinds(kinds, start, DefaultSection);
      var section := DefaultSection;
      var kvmap := start[section];
      secs := start;
      var i := 0;
      err := None;
      assert kinds[i..] == kinds;
      while i < |lines|
        invariant 0 <= i <= |lines|
        invariant section in secs && secs[section] == kvmap
        invariant ParseKinds(kinds[i..], secs, section) == goal
        invariant err == None
      {
        var line := TrimSpace(lines[i]);
        var size := |line|;
        if size == 0 {
          // a blank line
          ReadLineSkip(kinds, lines, i, kvSep, true, true, secs, section, line);
        } else if line[0] == ';' || line[0] == '#' {
          // a comment
          ReadLineSkip(kinds, lines, i, kvSep, true, true, secs, section, line);
        } else if line[0] == '[' && line[size - 1] == ']' {
          ReadLineHeader(kinds, lines, i, kvSep, true, true, secs, section, line);
          section := line[1..size - 1];
          kvmap := map[];
          secs := secs[section := kvmap];
        } else {
          var pos := Index(line, kvSep);
          if pos < 0 {
            ReadLineMalformed(kinds, lines, i, kvSep, true, true, secs, section, line);
            err := Some(MalformedMessage(line));
            return;
          }
          var k := TrimSpace(line[..pos]);
          var v := TrimSpace(line[pos + |kvSep|..]);
          ReadLineKeyValue(kinds, lines, i, kvSep, true, true, secs, section, line, pos, k, v);
          kvmap := kvmap[k := v];
          secs := secs[section := kvmap];
        }
        assert ParseKinds(kinds[i + 1..], secs, section) == goal;
        i := i + 1;
      }
    }

    /** SectionGet: the value and true, or "" and false when the section or
        the key is absent. */
    function SectionGet(section: string, key: string): (r: (string, bool))
      reads this
      ensures r.1 <==> section in sections && key in sections[section]
      ensures r.1 ==> r.0 == sections[section][key]
      ensures !r.1 ==> r.0 == ""
    {
      Lookup(sections, section, key)
    }

    /** Get: SectionGet on the default section. */
    function Get(key: string): (r: (string, bool))
      reads this
      ensures r == SectionGet(DefaultSection, key)
      ensures r.1 <==> DefaultSection in sections && key in sections[DefaultSection]
    {
      SectionGet(DefaultSection, key)
    }

    /** GetKvmap: the section's map and whether it exists. */
    function GetKvmap(section: string): (r: (Kvmap, bool))
      reads this
      ensures r.1 <==> section in sections
      ensures r.1 ==> r.0 == sections[section]
      ensures !r.1 ==> r.0 == map[]
    {
      (SectionOf(sections, section), section in sections)
    }
  }

  /** A new object of each kind, the ini.go one with section parsing and
      comment skipping switched on, given the same data and separators: both
      end with the same sections and report the same error. */
  method SameAsIniParser(data: string, lineSep: string, kvSep: string)
    returns (w: Ini, g: Goini.Ini, werr: Option<string>, gerr: Option<string>)
    ensures fresh(w) && fresh(g)
    ensures w.sections == g.sections && werr == gerr
  {
    w := new Ini();
    werr := w.Parse(data, lineSep, kvSep);
    g := new Goini.Ini();
    g.SetParseSection(true);
    g.SetSkipCommits(true);
    gerr := g.Parse(data, lineSep, kvSep);
  }
}
