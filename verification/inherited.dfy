/**
 * inheritedini.go: merging one INI object into another, resolving the
 * path of a parent file, and loading a file together with the chain of
 * files it inherits from through its `inherited_from` key.
 */
module Inherited {
  import opened Wrappers
  import opened Document
  import opened Parser
  import Goini

  /** The key of the default section that names the file inherited from. */
  const InheritedFrom: string := "inherited_from"

  /** One section after a merge: with `override` the incoming pairs win,
      otherwise the pairs already present win. */
  function Combine(mine: Kvmap, theirs: Kvmap, override: bool): Kvmap {
    if override then mine + theirs else theirs + mine
  }

  /** The sections of `secs` holding at least one pair: only these can
      create a section in the receiver of a merge. */
  function NonEmpty(secs: SectionMap): set<string> {
    set s | s in secs && secs[s] != map[]
  }

  /** The sections Merge leaves in the receiver `to` when merging `from`;
      no section of the receiver is ever dropped. */
  function MergeSections(to: SectionMap, from: SectionMap, override: bool): (r: SectionMap)
    ensures to.Keys <= r.Keys
  {
    map s | s in to.Keys + NonEmpty(from) :: Combine(SectionOf(to, s), SectionOf(from, s), override)
  }

  /** Where a section ends up: present when the receiver had it or `from`
      brings a pair for it, and then the combination of the two. */
  lemma MergeAt(to: SectionMap, from: SectionMap, override: bool, s: string)
    ensures var r := MergeSections(to, from, override);
      && (s in r <==> s in to || (s in from && from[s] != map[]))
      && (s in r ==> r[s] == Combine(SectionOf(to, s), SectionOf(from, s), override))
  {
  }

  /** What a merge holds, pair by pair: exactly the pairs of either side,
      the value from `from` where override is on or `to` lacks the pair,
      the value of `to` otherwise. */
  lemma MergeLookup(to: SectionMap, from: SectionMap, override: bool, s: string, k: string)
    ensures var r := MergeSections(to, from, override);
      && (Has(r, s, k) <==> Has(to, s, k) || Has(from, s, k))
      && (Has(from, s, k) && (override || !Has(to, s, k)) ==> r[s][k] == from[s][k])
      && (Has(to, s, k) && !(override && Has(from, s, k)) ==> r[s][k] == to[s][k])
  {
    MergeAt(to, from, override, s);
    if Has(from, s, k) {
      assert k in from[s];
    }
  }

  /** Merge(from, false) never changes a pair the receiver already holds. */
  lemma MergeKeepsExisting(to: SectionMap, from: SectionMap, s: string, k: string)
    requires Has(to, s, k)
    ensures Lookup(MergeSections(to, from, false), s, k) == Lookup(to, s, k)
  {
    MergeLookup(to, from, false, s, k);
  }

  /** Merge(from, true) leaves every pair of `from` with `from`'s value. */
  lemma MergeOverrides(to: SectionMap, from: SectionMap, s: string, k: string)
    requires Has(from, s, k)
    ensures Lookup(MergeSections(to, from, true), s, k) == Lookup(from, s, k)
  {
    MergeLookup(to, from, true, s, k);
  }

  /** Either way, the pairs afterwards are those of the receiver and those
      of `from`; a section appears only if it was there or brings a pair. */
  lemma MergeUnion(to: SectionMap, from: SectionMap, override: bool)
    ensures var r := MergeSections(to, from, override);
      && r.Keys == to.Keys + NonEmpty(from)
      && forall s, k :: Has(r, s, k) <==> Has(to, s, k) || Has(from, s, k)
  {
    forall s, k ensures Has(MergeSections(to, from, override), s, k) <==> Has(to, s, k) || Has(from, s, k) {
      MergeLookup(to, from, override, s, k);
    }
  }

  /** Combining a section with the same pairs a second time changes nothing. */
  lemma CombineTwice(mine: Kvmap, theirs: Kvmap, override: bool)
    ensures Combine(Combine(mine, theirs, override), theirs, override) == Combine(mine, theirs, override)
  {
    var once := Combine(mine, theirs, override);
    assert Combine(once, theirs, override).Keys == once.Keys;
  }

  /** Merging the same `from` a second time changes nothing. */
  lemma MergeIdempotent(to: SectionMap, from: SectionMap, override: bool)
    ensures MergeSections(MergeSections(to, from, override), from, override) == MergeSections(to, from, override)
  {
    var once := MergeSections(to, from, override);
    var twice := MergeSections(once, from, override);
    forall s ensures s in twice <==> s in once {
      MergeAt(to, from, override, s);
      MergeAt(once, from, override, s);
    }
    forall s | s in once ensures twice[s] == once[s] {
      MergeAt(to, from, override, s);
      MergeAt(once, from, override, s);
      CombineTwice(SectionOf(to, s), SectionOf(from, s), override);
    }
  }

  /** Merging an object's sections into themselves changes nothing. */
  lemma MergeSelf(secs: SectionMap, override: bool)
    ensures MergeSections(secs, secs, override) == secs
  {
    var r := MergeSections(secs, secs, override);
    forall s ensures s in r <==> s in secs {
      MergeAt(secs, secs, override, s);
    }
    forall s | s in secs ensures r[s] == secs[s] {
      MergeAt(secs, secs, override, s);
      assert Combine(secs[s], secs[s], override).Keys == secs[s].Keys;
    }
  }

  /** Merging nothing changes nothing. */
  lemma MergeNothing(to: SectionMap, override: bool)
    ensures MergeSections(to, map[], override) == to
  {
    var r := MergeSections(to, map[], override);
    forall s ensures s in r <==> s in to {
      MergeAt(to, map[], override, s);
    }
    forall s | s in to ensures r[s] == to[s] {
      MergeAt(to, map[], override, s);
      assert Combine(to[s], map[], override).Keys == to[s].Keys;
    }
  }

  /** Adding an empty section to what is merged makes no difference. */
  lemma MergeEmptySection(to: SectionMap, got: SectionMap, s: string, override: bool)
    requires s !in got
    ensures MergeSections(to, got[s := map[]], override) == MergeSections(to, got, override)
  {
    var a := MergeSections(to, got[s := map[]], override);
    var b := MergeSections(to, got, override);
    forall t ensures t in a <==> t in b {
      MergeAt(to, got[s := map[]], override, t);
      MergeAt(to, got, override, t);
    }
    forall t | t in a ensures a[t] == b[t] {
      MergeAt(to, got[s := map[]], override, t);
      MergeAt(to, got, override, t);
    }
  }

  /** One pair more in section `s` of `from`, as the section's combination sees it. */
  lemma CombineOne(mine: Kvmap, theirs: Kvmap, k: string, v: string, override: bool)
    requires k !in theirs
    ensures override || k !in mine ==> Combine(mine, theirs[k := v], override) == Combine(mine, theirs, override)[k := v]
    ensures !override && k in mine ==> Combine(mine, theirs[k := v], override) == Combine(mine, theirs, override)
  {
    var a := Combine(mine, theirs[k := v], override);
    if override || k !in mine {
      assert a.Keys == Combine(mine, theirs, override)[k := v].Keys;
    } else {
      assert a.Keys == Combine(mine, theirs, override).Keys;
    }
  }

  /** A section's pairs after a merge, whether or not the section is present. */
  lemma MergeSectionOf(to: SectionMap, from: SectionMap, override: bool, s: string)
    ensures SectionOf(MergeSections(to, from, override), s) == Combine(SectionOf(to, s), SectionOf(from, s), override)
  {
    MergeAt(to, from, override, s);
  }

  /** Giving section `s` of `from` a non-empty map `m` changes section `s`
      of the merge and nothing else. */
  lemma MergeReplace(to: SectionMap, from: SectionMap, s: string, m: Kvmap, override: bool)
    requires m != map[]
    ensures MergeSections(to, from[s := m], override)
      == MergeSections(to, from, override)[s := Combine(SectionOf(to, s), m, override)]
  {
    var a := MergeSections(to, from[s := m], override);
    var b := MergeSections(to, from, override)[s := Combine(SectionOf(to, s), m, override)];
    forall t ensures t in a <==> t in b {
      MergeAt(to, from[s := m], override, t);
      MergeAt(to, from, override, t);
    }
    forall t | t in a ensures a[t] == b[t] {
      MergeAt(to, from[s := m], override, t);
      MergeAt(to, from, override, t);
    }
  }

  /** One step of the inner loop: merging pair (s, k, v) on top of what was
      merged so far is one SectionSet when override is on or the pair is
      absent, and nothing otherwise. */
  lemma MergeOne(to: SectionMap, got: SectionMap, s: string, k: string, v: string, override: bool)
    requires k !in SectionOf(got, s)
    ensures var cur := MergeSections(to, got, override);
      var next := MergeSections(to, got[s := SectionOf(got, s)[k := v]], override);
      && (override || !Has(cur, s, k) ==> next == WithValue(cur, s, k, v))
      && (!override && Has(cur, s, k) ==> next == cur)
  {
    var cur := MergeSections(to, got, override);
    var part := SectionOf(got, s);
    assert k in part[k := v];
    MergeReplace(to, got, s, part[k := v], override);
    MergeSectionOf(to, got, override, s);
    CombineOne(SectionOf(to, s), part, k, v, override);
    if !override && Has(cur, s, k) {
      assert cur[s := cur[s]] == cur;
    }
  }

  /** Moving `k` from the keys still to do to the keys done. */
  lemma DoneStep<K, V>(done: map<K, V>, all: set<K>, todo: set<K>, k: K, v: V)
    requires todo <= all && done.Keys == all - todo && k in todo
    ensures done[k := v].Keys == all - (todo - {k})
  {
  }

  lemma UpdateTwice(got: SectionMap, s: string, first: Kvmap, second: Kvmap)
    ensures got[s := first][s := second] == got[s := second]
  {
  }

  /** Merge: every pair of `from` is stored into `ini` when override is on or
      `ini` lacks it.  The sections of `from` are read from a snapshot taken
      at the start, which is what inheritedini.go does when `from` is a separate
      object and changes nothing when it is `ini` itself. */
  method Merge(ini: Goini.Ini, from: Goini.Ini, override: bool)
    modifies ini
    ensures ini.sections == MergeSections(old(ini.sections), old(from.sections), override)
    ensures from.sections == old(from.sections)
    ensures ini.linesep == old(ini.linesep) && ini.kvsep == old(ini.kvsep)
    ensures ini.parseSection == old(ini.parseSection) && ini.skipCommits == old(ini.skipCommits)
  {
    ghost var to := ini.sections;
    var fromSecs := from.sections;
    ghost var got: SectionMap := map[];
    var todo := fromSecs.Keys;
    MergeNothing(to, override);
    while todo != {}
      invariant todo <= fromSecs.Keys && got.Keys == fromSecs.Keys - todo
      invariant forall s | s in got :: got[s] == fromSecs[s]
      invariant ini.sections == MergeSections(to, got, override)
      invariant ini.linesep == old(ini.linesep) && ini.kvsep == old(ini.kvsep)
      invariant ini.parseSection == old(ini.parseSection) && ini.skipCommits == old(ini.skipCommits)
      decreases |todo|
    {
      var s :| s in todo;
      var kv := fromSecs[s];
      MergeEmptySection(to, got, s, override);
      MergeKvmap(ini, s, kv, override, to, got);
      DoneStep(got, fromSecs.Keys, todo, s, kv);
      got := got[s := kv];
      todo := todo - {s};
    }
    assert got == fromSecs;
    if from == ini {
      MergeSelf(to, override);
    }
  }

  /** The inner loop of Merge over the pairs of section `s` of `from`: each
      is stored when override is on or the receiver lacks it.  `to` is the
      receiver before the merge and `got` what has been merged into it. */
  method MergeKvmap(ini: Goini.Ini, s: string, kv: Kvmap, override: bool, ghost to: SectionMap, ghost got: SectionMap)
    requires s !in got
    requires ini.sections == MergeSections(to, got[s := map[]], override)
    modifies ini
    ensures ini.sections == MergeSections(to, got[s := kv], override)
    ensures ini.linesep == old(ini.linesep) && ini.kvsep == old(ini.kvsep)
    ensures ini.parseSection == old(ini.parseSection) && ini.skipCommits == old(ini.skipCommits)
  {
    ghost var part: Kvmap := map[];
    var keys := kv.Keys;
    while keys != {}
      invariant keys <= kv.Keys && part.Keys == kv.Keys - keys
      invariant forall k | k in part :: part[k] == kv[k]
      invariant ini.sections == MergeSections(to, got[s := part], override)
      invariant ini.linesep == old(ini.linesep) && ini.kvsep == old(ini.kvsep)
      invariant ini.parseSection == old(ini.parseSection) && ini.skipCommits == old(ini.skipCommits)
      decreases |keys|
    {
      var k :| k in keys;
      var (_, found) := ini.SectionGet(s, k);
      MergeOne(to, got[s := part], s, k, kv[k], override);
      UpdateTwice(got, s, part, part[k := kv[k]]);
      if override || !found {
        ini.SectionSet(s, k, kv[k]);
      }
      DoneStep(part, kv.Keys, keys, k, kv[k]);
      part := part[k := kv[k]];
      keys := keys - {k};
    }
    assert part == kv;
  }

  /** filepath.IsAbs on a Unix system: the path starts at the root. */
  predicate IsAbs(path: string) {
    |path| > 0 && path[0] == '/'
  }

  /** The directory part of filepath.Split: everything up to and including
      the last '/', or nothing when there is none. */
  function DirOf(path: string): string {
    if path == [] then []
    else if path[|path| - 1] == '/' then path
    else DirOf(path[..|path| - 1])
  }

  /** The directory part is a prefix of the path that is empty or ends in
      '/', and no '/' follows it. */
  lemma {:induction false} DirOfSplits(path: string)
    ensures var d := DirOf(path);
      && |d| <= |path| && d == path[..|d|]
      && (d == [] || d[|d| - 1] == '/')
      && forall i | |d| <= i < |path| :: path[i] != '/'
  {
    if path != [] && path[|path| - 1] != '/' {
      var front := path[..|path| - 1];
      DirOfSplits(front);
      var d := DirOf(front);
      assert path[..|d|] == front[..|d|];
    }
  }

  /** realpath: an absolute parent path is used as it is; a relative one is
      taken from the directory of the current file. */
  function RealPath(currentPath: string, inheritedPath: string): (r: string)
    ensures IsAbs(inheritedPath) ==> r == inheritedPath
    ensures IsAbs(r) <==> IsAbs(inheritedPath) || IsAbs(currentPath)
  {
    DirOfSplits(currentPath);
    if IsAbs(inheritedPath) then inheritedPath else DirOf(currentPath) + inheritedPath
  }

  /** The resolved path: an absolute path unchanged; otherwise the current
      file's directory part (a prefix of it, ending in '/' unless empty,
      with no '/' after it) followed by the relative path. */
  lemma RealPathRule(currentPath: string, inheritedPath: string)
    ensures IsAbs(inheritedPath) ==> RealPath(currentPath, inheritedPath) == inheritedPath
    ensures !IsAbs(inheritedPath) ==>
      exists n | 0 <= n <= |currentPath| ::
        && RealPath(currentPath, inheritedPath) == currentPath[..n] + inheritedPath
        && (n == 0 || currentPath[n - 1] == '/')
        && forall i | n <= i < |currentPath| :: currentPath[i] != '/'
  {
    if !IsAbs(inheritedPath) {
      DirOfSplits(currentPath);
      var n := |DirOf(currentPath)|;
      assert RealPath(currentPath, inheritedPath) == currentPath[..n] + inheritedPath;
    }
  }

  /** How loading a file and the chain of its parents ends: the parsed
      sections of each file of the chain, the file itself first, then its
      parent, and so on; an error text; or the recursion bound reached
      before the chain ended. */
  datatype Outcome = Parsed(chain: seq<SectionMap>) | Failed(msg: string) | OutOfFuel

  /** The sections a loaded chain leaves: each file merged, without
      override, on top of what its parents leave. */
  function Flatten(chain: seq<SectionMap>): (r: SectionMap)
    requires chain != []
    ensures chain[0].Keys <= r.Keys
    ensures forall s, k | s in chain[0] && k in chain[0][s] :: k in r[s] && r[s][k] == chain[0][s][k]
  {
    if |chain| == 1 then chain[0] else MergeSections(chain[0], Flatten(chain[1..]), false)
  }

  lemma FlattenCons(child: SectionMap, parents: seq<SectionMap>)
    requires parents != []
    ensures Flatten([child] + parents) == MergeSections(child, Flatten(parents), false)
  {
    assert ([child] + parents)[1..] == parents;
  }

  /** What ParseFile leaves in a new object for each file: its sections
      and its error. */
  type Parses = map<string, ParseResult>

  /** Every file of `fs` parsed as ParseFile parses it: both flags on, the
      default separators, starting from no sections. */
  function ParsedFiles(fs: Goini.FileSystem): Parses {
    map p | p in fs :: ParseData(map[], fs[p], DefaultLineSeparator, DefaultKeyValueSeparator, true, true)
  }

  /** ParseFile on a new object: the file's parse, or the read error when it does not exist. */
  function Opened(docs: Parses, filename: string): ParseResult {
    if filename in docs then docs[filename]
    else ParseResult(map[], DefaultSection, Some(Goini.ReadFileError(filename)))
  }

  /** The chain's answer once the parent at `path` has been loaded: the
      parent's error with the path appended, or the child in front of the
      parent's chain. */
  function Inherit(child: SectionMap, path: string, parent: Outcome): Outcome {
    match parent
    case Failed(m) => Failed(m + " " + path)
    case OutOfFuel => OutOfFuel
    case Parsed(p) => Parsed([child] + p)
  }

  /** LoadInheritedINI with at most `fuel` levels of parents: parse the
      file; without `inherited_from` that is the answer; otherwise load the
      parent it names, resolved against the file's own path. */
  function LoadSpec(docs: Parses, filename: string, fuel: nat): (o: Outcome)
    ensures o.Parsed? ==> o.chain != [] && o.chain[0] == Opened(docs, filename).sections
    decreases fuel
  {
    var r := Opened(docs, filename);
    if r.err.Some? then Failed(r.err.value)
    else if !Has(r.sections, DefaultSection, InheritedFrom) then Parsed([r.sections])
    else if fuel == 0 then OutOfFuel
    else
      var path := RealPath(filename, r.sections[DefaultSection][InheritedFrom]);
      Inherit(r.sections, path, LoadSpec(docs, path, fuel - 1))
  }

  /** What the loading method returns. */
  datatype LoadResult = Loaded(ini: Goini.Ini) | LoadError(msg: string) | Exhausted

  /** The settings ParseFile leaves on an object: the default separators,
      section parsing and comment skipping on. */
  predicate FileSettings(ini: Goini.Ini)
    reads ini
  {
    && ini.linesep == DefaultLineSeparator && ini.kvsep == DefaultKeyValueSeparator
    && ini.parseSection && ini.skipCommits
  }

  /** The method's result `r` is the outcome `o`: the same error text, the
      bound reached on both sides, or an object holding the chain's merge
      with the settings ParseFile gave it. */
  predicate Agrees(r: LoadResult, o: Outcome)
    reads if r.Loaded? then {r.ini} else {}
  {
    match o
    case Parsed(chain) => r.Loaded? && chain != [] && r.ini.sections == Flatten(chain) && FileSettings(r.ini)
    case Failed(m) => r == LoadError(m)
    case OutOfFuel => r == Exhausted
  }

  /** The contents of the file `p` of `fs`. */
  function FileData(fs: Goini.FileSystem, p: string): string
    requires p in fs
  {
    fs[p]
  }

  /** `docs` holds, for each file of `fs`, what ParseFile makes of it. Each
      entry is only brought up where the file is read. */
  ghost predicate ParsedFrom(fs: Goini.FileSystem, docs: Parses) {
    && docs.Keys == fs.Keys
    && forall p {:trigger FileData(fs, p)} | p in fs ::
         docs[p] == ParseData(map[], FileData(fs, p), DefaultLineSeparator, DefaultKeyValueSeparator, true, true)
  }

  lemma ParsedFilesFrom(fs: Goini.FileSystem)
    ensures ParsedFrom(fs, ParsedFiles(fs))
  {
    forall p | p in fs
      ensures ParsedFiles(fs)[p] == ParseData(map[], FileData(fs, p), DefaultLineSeparator, DefaultKeyValueSeparator, true, true)
    {
    }
  }

  /** LoadInheritedINI, bounded by `fuel` levels of parents. */
  method LoadInheritedIni(fs: Goini.FileSystem, filename: string, fuel: nat) returns (r: LoadResult)
    ensures r.Loaded? ==> fresh(r.ini)
    ensures Agrees(r, LoadSpec(ParsedFiles(fs), filename, fuel))
  {
    ParsedFilesFrom(fs);
    r := Load(fs, filename, fuel, ParsedFiles(fs));
  }

  /** LoadInheritedINI against the parses `docs` of the files of `fs`. */
  method Load(fs: Goini.FileSystem, filename: string, fuel: nat, ghost docs: Parses) returns (r: LoadResult)
    requires ParsedFrom(fs, docs)
    decreases fuel, 1
    ensures r.Loaded? ==> fresh(r.ini)
    ensures Agrees(r, LoadSpec(docs, filename, fuel))
  {
    var ini, err := OpenFile(fs, filename, docs);
    if err.Some? {
      return LoadError(err.value);
    }
    var (inherited, ok) := ini.Get(InheritedFrom);
    if !ok {
      return Loaded(ini);
    }
    if fuel == 0 {
      return Exhausted;
    }
    r := LoadParent(ini, fs, filename, fuel, docs);
  }

  /** The first step of LoadInheritedINI: a new object, and ParseFile on it. */
  method OpenFile(fs: Goini.FileSystem, filename: string, ghost docs: Parses) returns (ini: Goini.Ini, err: Option<string>)
    requires ParsedFrom(fs, docs)
    ensures fresh(ini)
    ensures ini.sections == Opened(docs, filename).sections
    ensures err == Opened(docs, filename).err
    ensures err == None ==> FileSettings(ini)
  {
    ini := new Goini.Ini();
    err := ini.ParseFile(fs, filename);
    if filename in fs {
      assert FileData(fs, filename) == fs[filename];
    }
  }

  /** The rest of LoadInheritedINI once `ini` holds the parsed `filename`
      and it names a parent: load the parent, resolved against `filename`,
      then merge it into `ini` without overriding. */
  method LoadParent(ini: Goini.Ini, fs: Goini.FileSystem, filename: string, fuel: nat, ghost docs: Parses)
    returns (r: LoadResult)
    requires ParsedFrom(fs, docs)
    requires Opened(docs, filename).err == None
    requires ini.sections == Opened(docs, filename).sections
    requires Has(ini.sections, DefaultSection, InheritedFrom) && fuel > 0
    requires FileSettings(ini)
    modifies ini
    decreases fuel, 0
    ensures r.Loaded? ==> r.ini == ini
    ensures ini.linesep == old(ini.linesep) && ini.kvsep == old(ini.kvsep)
    ensures ini.parseSection == old(ini.parseSection) && ini.skipCommits == old(ini.skipCommits)
    ensures Agrees(r, LoadSpec(docs, filename, fuel))
  {
    var (inherited, _) := ini.Get(InheritedFrom);
    var path := RealPath(filename, inherited);
    ghost var child := ini.sections;
    assert inherited == child[DefaultSection][InheritedFrom];
    LoadUnfold(docs, filename, fuel);
    var parent := Load(fs, path, fuel - 1, docs);
    match parent
    case LoadError(m) =>
      return LoadError(m + " " + path);
    case Exhausted =>
      return Exhausted;
    case Loaded(p) =>
      Merge(ini, p, false);
      FlattenCons(child, LoadSpec(docs, path, fuel - 1).chain);
      return Loaded(ini);
  }

  /** Without `inherited_from` the parsed file is the answer, at any fuel. */
  lemma LoadWithoutParent(docs: Parses, filename: string, fuel: nat)
    requires Opened(docs, filename).err == None
    requires !Has(Opened(docs, filename).sections, DefaultSection, InheritedFrom)
    ensures LoadSpec(docs, filename, fuel) == Parsed([Opened(docs, filename).sections])
  {
  }

  /** The child's own pairs win over everything inherited. */
  lemma ChildTakesPrecedence(docs: Parses, filename: string, fuel: nat, s: string, k: string)
    requires LoadSpec(docs, filename, fuel).Parsed?
    requires Has(Opened(docs, filename).sections, s, k)
    ensures Lookup(Flatten(LoadSpec(docs, filename, fuel).chain), s, k) == Lookup(Opened(docs, filename).sections, s, k)
  {
    var r := Opened(docs, filename);
    if Has(r.sections, DefaultSection, InheritedFrom) {
      var path := RealPath(filename, r.sections[DefaultSection][InheritedFrom]);
      var parents := LoadSpec(docs, path, fuel - 1).chain;
      FlattenCons(r.sections, parents);
      MergeKeepsExisting(r.sections, Flatten(parents), s, k);
    }
  }

  /** A loaded chain holds every pair of the child and every pair of the
      parent, the parent's value only where the child has none. */
  lemma ParentFillsGaps(docs: Parses, filename: string, fuel: nat, s: string, k: string)
    requires LoadSpec(docs, filename, fuel).Parsed?
    requires fuel > 0
    requires Has(Opened(docs, filename).sections, DefaultSection, InheritedFrom)
    ensures var path := RealPath(filename, Opened(docs, filename).sections[DefaultSection][InheritedFrom]);
      var parent := LoadSpec(docs, path, fuel - 1);
      && parent.Parsed?
      && var all := Flatten(LoadSpec(docs, filename, fuel).chain);
      && var inherited := Flatten(parent.chain);
      && (Has(all, s, k) <==> Has(Opened(docs, filename).sections, s, k) || Has(inherited, s, k))
      && (!Has(Opened(docs, filename).sections, s, k) && Has(inherited, s, k) ==> all[s][k] == inherited[s][k])
  {
    var r := Opened(docs, filename);
    var path := RealPath(filename, r.sections[DefaultSection][InheritedFrom]);
    var parents := LoadSpec(docs, path, fuel - 1).chain;
    FlattenCons(r.sections, parents);
    MergeLookup(r.sections, Flatten(parents), false, s, k);
  }

  /** A parent that fails to load fails the whole chain, with the parent's
      path appended to its error. */
  lemma ParentErrorNamesPath(docs: Parses, filename: string, fuel: nat)
    requires fuel > 0 && Opened(docs, filename).err == None
    requires Has(Opened(docs, filename).sections, DefaultSection, InheritedFrom)
    ensures var path := RealPath(filename, Opened(docs, filename).sections[DefaultSection][InheritedFrom]);
      LoadSpec(docs, path, fuel - 1).Failed? ==>
        LoadSpec(docs, filename, fuel) == Failed(LoadSpec(docs, path, fuel - 1).msg + " " + path)
  {
  }

  /** More fuel never changes an answer reached with less. */
  lemma {:induction false} FuelMonotone(docs: Parses, filename: string, fuel: nat, more: nat)
    requires fuel <= more
    requires !LoadSpec(docs, filename, fuel).OutOfFuel?
    ensures LoadSpec(docs, filename, more) == LoadSpec(docs, filename, fuel)
    decreases fuel
  {
    var r := Opened(docs, filename);
    LoadUnfold(docs, filename, fuel);
    LoadUnfold(docs, filename, more);
    if r.err == None && Has(r.sections, DefaultSection, InheritedFrom) {
      var path := RealPath(filename, r.sections[DefaultSection][InheritedFrom]);
      assert fuel > 0;
      InheritOutOfFuel(r.sections, path, LoadSpec(docs, path, fuel - 1));
      FuelMonotone(docs, path, fuel - 1, more - 1);
    }
  }

  lemma InheritOutOfFuel(child: SectionMap, path: string, parent: Outcome)
    ensures Inherit(child, path, parent).OutOfFuel? <==> parent.OutOfFuel?
  {
  }

  /** One level of LoadSpec, in terms of the file's parse `r`. */
  lemma LoadUnfold(docs: Parses, filename: string, fuel: nat)
    ensures var r := Opened(docs, filename);
      var here := LoadSpec(docs, filename, fuel);
      && (r.err.Some? ==> here == Failed(r.err.value))
      && (r.err.None? && !Has(r.sections, DefaultSection, InheritedFrom) ==> here == Parsed([r.sections]))
      && (r.err.None? && Has(r.sections, DefaultSection, InheritedFrom) && fuel == 0 ==> here == OutOfFuel)
      && (r.err.None? && Has(r.sections, DefaultSection, InheritedFrom) && fuel > 0 ==>
            var path := RealPath(filename, r.sections[DefaultSection][InheritedFrom]);
            here == Inherit(r.sections, path, LoadSpec(docs, path, fuel - 1)))
  {
  }

  /** A file that names itself as its parent never finishes loading: the
      Go code has no cycle check, and every bound is used up. */
  lemma {:induction false} SelfInheritanceNeverEnds(docs: Parses, filename: string, fuel: nat)
    requires Opened(docs, filename).err == None
    requires Has(Opened(docs, filename).sections, DefaultSection, InheritedFrom)
    requires RealPath(filename, Opened(docs, filename).sections[DefaultSection][InheritedFrom]) == filename
    ensures LoadSpec(docs, filename, fuel) == OutOfFuel
    decreases fuel
  {
    if fuel > 0 {
      SelfInheritanceNeverEnds(docs, filename, fuel - 1);
    }
  }
}
