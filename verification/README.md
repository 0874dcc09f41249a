# goini in Dafny

A model of goini, a small Go library that reads and writes INI data. The
model covers three files:

- `ini.go`: the `INI` object. It holds sections of key/value pairs, the
  line and key/value separators, and two switches, `parseSection` and
  `skipCommits`. It has the parser, the typed getters and setters, `Delete`
  and `Write`.
- `wini.go`: an older copy of the parser. It always recognises section
  headers and both comment characters.
- `inheritedini.go`: `LoadInheritedINI`, `Merge` and `realpath`.
  `LoadInheritedINI` loads a file and then, through its `inherited_from`
  key, the chain of files it inherits from. `Merge` combines two objects.

The files of the model:

- `text.dfy`: the byte-slice routines the parser relies on.
  - `bytes.TrimSpace`, `bytes.Index` and `bytes.Split`, as pure functions
    with their defining properties.
  - `Terminated`, the text a writer produces when it follows every line
    with a separator.
- `strconv.dfy`: `strconv.Itoa` and `strconv.Atoi` on 64-bit integers, and
  the proof that `Atoi` reads back what `Itoa` writes.
- `document.dfy`: the section map and the lookups and updates the getters
  and setters perform.
  - The zero value and `false` for an absent key.
  - The twelve true and twelve false spellings `SectionGetBool` accepts.
- `parser.dfy`: the parser as a specification.
  - `Classify` tests a line in `ini.go`'s own order (blank, comment,
    header, malformed, pair). The comment test keeps Go's precedence:
    `skipCommits && line[0] == ';' || line[0] == '#'` skips `#` lines even
    when `skipCommits` is off.
  - `ParseKinds` folds the classified lines into the sections and stops at
    the first malformed line with its error text.
  - `ParseData` is the whole of `parseINI`. It first installs a fresh
    default section, then reads the lines split on the line separator.
  - The lemmas state what a parse does. It fails exactly when some line is
    malformed. Blank pieces are skipped. The last pair for a key wins. A
    header starts its section afresh. Sections the input does not redeclare
    are kept.
- `serializer.dfy`: the text `Write` emits, for any order of sections and
  keys. Go's map iteration order is unspecified, so `Write` is proved for
  the order it picks.
- `roundtrip.dfy`: parsing the text that `Write` emits, with section
  parsing on, restores every section and every pair. The condition,
  `RoundTrip.Readable`, is stated line by line:
  - no header line and no pair line runs into the line separator: the
    separator first occurs right after the line (a value ending in `-`
    with the line separator `--` fails this);
  - a pair line `k + kvsep + v` is not empty, and neither it nor its key
    nor its value has surrounding white space;
  - a pair line does not start a comment and does not itself read as a
    bracketed header (the key `[a` with the value `b]` is written as
    `[a=b]`, which reads back as a header, so it is excluded);
  - the key/value separator first occurs right after the key.
- `goini.dfy`: the `INI` class of `ini.go`.
  - Its fields and its methods update them in place.
  - `parseINI`'s loop is proved against `ParseData`.
  - `Write`'s loops are proved against `Render`.
- `wini.dfy`: the `INI` class of `wini.go`, with its own loop. A method
  shows that it computes what `ini.go`'s parser computes with both switches
  on.
- `inherited.dfy`: `Merge`, `realpath` and `LoadInheritedINI`.
  - `MergeSections` specifies `Merge`'s nested loops, and its lemmas give
    the merge laws: union, precedence, idempotence, self-merge.
  - `LoadSpec` specifies loading as the chain of parsed files, which
    `Flatten` merges child first.

The file system is a map from path to contents. Reading a path that is
absent gives the error text `open <path>: no such file or directory`.

Input with repeated line separators, such as `a:av|b:bv||c:cv|||d:dv||||||`
parsed with `|` and `:`, splits into empty pieces between the repeated
separators. `TrimSpace` leaves such a piece empty and the parser skips it
as a blank line, so repeated separators add no keys; `Parser.SkipBlankLine`
states this for any input.

## Model

| member | source | states |
|---|---|---|
| `Text.TrimSpace` | ini.go:275 | The result has no leading or trailing white space and is no longer than the line; a line without such space is returned unchanged. |
| `Text.TrimSpaceIsSlice` | ini.go:275 | The trimmed line is the slice of the line between its leading and its trailing run of white space. |
| `Text.Index` | ini.go:293 | The position of the first occurrence of the separator, or -1 exactly when it occurs nowhere. |
| `Text.IndexIsFirst` | ini.go:293 | Any position holding the separator with no occurrence before it is the index found. |
| `Text.Split` | ini.go:273 | The pieces joined with the separator give back the data and no piece holds the separator; an empty separator gives one piece per byte, the i-th piece being the i-th byte. |
| `Text.SplitEmptySeparator` | ini.go:273 | With an empty separator there is one piece per byte, each piece being that byte. |
| `Text.SplitCutsAtFirst` | ini.go:273 | Every cut is at the leftmost occurrence of the separator in what remains, so overlapping occurrences (`x|||y` split on `||`) are cut from the left. |
| `Text.SplitUnique` | ini.go:273 | Any list of pieces that joins back to the data, has no piece holding the separator and cuts at the leftmost occurrence each time is the result of Split. |
| `Text.SplitTerminated` | ini.go:273 | Splitting lines that are each followed by the separator gives the lines back, then one empty piece. |
| `Strconv.Atoi` | ini.go:119 | Digits alone or after '+' read as their decimal value, after '-' as its negation, when the value fits in 64 bits; empty text, a sign alone, any other character and out-of-range values are rejected. |
| `Strconv.Itoa` | ini.go:197 | A '-' exactly for a negative number, then the decimal digits of its magnitude, which read back as it, with no leading zero. |
| `Strconv.AtoiExamples` | ini.go:119 | `+007` reads as 7 and `-12` as -12; a sign alone and a trailing letter are rejected. |
| `Strconv.DigitsValueOfDigits` | ini.go:197 | The decimal digits of a natural number read back as that number. |
| `Strconv.AtoiOfItoa` | ini.go:197 | For every 64-bit integer, Atoi of its Itoa text is that integer. |
| `Document.Lookup` | ini.go:108-113 | Found exactly when the section exists and holds the key; the stored value, or "" when not found. |
| `Document.LookupInt` | ini.go:116-126 | Found exactly when the key is present; the Atoi value when it parses, and 0 (still found) when it does not. |
| `Document.LookupBool` | ini.go:142-154 | Found exactly when the stored value is one of the 24 literals; true exactly for the 12 true literals. |
| `Document.BoolText` | ini.go:208-214 | The text stored for a boolean is one of the literals that read back as that boolean. |
| `Document.WithValue` | ini.go:218-225 | The pair reads back as stored, every other pair reads as before, and the section exists afterwards. |
| `Document.WithoutKey` | ini.go:228-233 | The key reads as absent, every other pair reads as before, an absent section is left alone and no section disappears. |
| `Document.IntReadsBack` | ini.go:196-198 | An integer stored with Itoa reads back through SectionGetInt as that integer, found. |
| `Document.BoolReadsBack` | ini.go:190-192 | A boolean stored with SectionSetBool reads back through SectionGetBool as that boolean, found. |
| `Parser.ClassifyRules` | ini.go:274-302 | Each rule in both directions: a blank line, a comment (';' only when skipping comments, '#' always), a bracketed header when parsing sections, a line without the separator as an error, and otherwise a pair. |
| `Parser.Classify` | ini.go:274-302 | Blank exactly when the trimmed line is empty; a malformed line is the trimmed line and holds no separator; a pair's key and value carry no surrounding white space. |
| `Parser.MalformedMessage` | ini.go:296 | The error text quotes the offending line whole, after its fixed 24-character prefix. |
| `Parser.ClassifyPairLine` | ini.go:293-301 | A line that is no blank, comment or header and holds the separator reads as the pair of its trimmed text before and after the first separator. |
| `Parser.PairSplitsAtFirstSeparator` | ini.go:293-301 | A pair line splits at the first occurrence of the separator, so later separators stay in the value. |
| `Parser.ClassifyWrittenPair` | ini.go:255-262 | A line `k + kvsep + v` that Write emits for a writable pair reads back as that pair. |
| `Parser.ClassifyWrittenHeader` | ini.go:285-291 | A bracketed name reads back as the header of that name whatever the name. |
| `Parser.ClassifyAllAt` | ini.go:274-275 | The i-th classified line is the classification of the i-th piece. |
| `Parser.ParseKinds` | ini.go:274-304 | A parse never removes a section, and ends in a section that exists. |
| `Parser.ParseData` | ini.go:264-305 | After parseINI the default section exists and every section present before is still present. |
| `Parser.ParseStep` | ini.go:276-302 | One step of the loop for each kind of line: skip, open a fresh section, store the pair in the current section, or stop with the error text. |
| `Parser.ReadLineSkip` | ini.go:277-284 | A blank or comment line leaves the rest of the parse unchanged. |
| `Parser.ReadLineHeader` | ini.go:285-291 | A header line continues the parse in a fresh empty section named by the text between the brackets. |
| `Parser.ReadLineMalformed` | ini.go:293-298 | A line without the separator ends the parse with the message naming the trimmed line and the sections as they stood. |
| `Parser.ReadLineKeyValue` | ini.go:300-302 | A pair line stores the trimmed key and value in the current section and the parse goes on. |
| `Parser.ParseAppend` | ini.go:274-304 | Reading two runs of lines is reading the first, then, unless it failed, the second from where it ended. |
| `Parser.ParseSucceedsIff` | ini.go:293-298 | A parse reports an error exactly when some line is malformed. |
| `Parser.ParseStopsAtFirstMalformed` | ini.go:294-297 | The first malformed line ends the parse with its own message, keeping what the lines before it stored. |
| `Parser.SkipBlankLine` | ini.go:277-280 | Inserting a blank line anywhere changes nothing, which is why repeated line separators are harmless. |
| `Parser.ParseWritesFreshSections` | ini.go:285-291 | What a parse stores in the current section and in the sections it declares does not depend on what those sections held before a header reset them. |
| `Parser.DefaultSectionIsFresh` | ini.go:268-271 | The default section after a parse does not depend on what it held before: parseINI replaces it by an empty map first. |
| `Parser.ParseKeepsUndeclared` | ini.go:285-291 | A section other than the current one that no header redeclares comes out of the parse exactly as it went in. |
| `Parser.ParseDataKeepsUndeclared` | ini.go:264-305 | A named section that the input does not redeclare keeps its pairs from earlier parses. |
| `Parser.PairSurvives` | ini.go:300-302 | A pair of the current section stays while no header and no pair for the same key follows. |
| `Parser.LastPairWins` | ini.go:302 | With duplicate keys, the last pair line for the key (with no header after it) decides the value. |
| `Parser.AppextExample` | test/main.go:59-63 | The line `appext=ab=cd` reads as key `appext` with value `ab=cd`. |
| `Serializer.DistinctCount` | ini.go:256 | An order that lists every key of a map once has exactly as many entries as the map. |
| `Serializer.PairLinesExact` | ini.go:255-262 | A key map is written as exactly one line per pair, and every pair's line is among them. |
| `Serializer.HeadersWritten` | ini.go:244-249 | Every named section in the chosen order has its header line among the written lines. |
| `Serializer.NamedBlocksCount` | ini.go:244-249 | The named sections' blocks have one header line per section plus one line per pair. |
| `Serializer.NamedBlocksPairs` | ini.go:244-249 | Every pair of a named section in the order has its `k + kvsep + v` line among the named sections' blocks. |
| `Serializer.DefaultLinesFirst` | ini.go:239-242 | The default section's pair lines open the output. |
| `Serializer.PairsWritten` | ini.go:236-262 | Every stored pair, in any section, has its `k + kvsep + v` line in the output. |
| `Serializer.LinesCount` | ini.go:236-262 | The output has exactly one line per named section and one per stored pair. |
| `Serializer.DocumentLinesShape` | ini.go:236-252 | The default section's pairs come first without a header, one line each; every named section's header and every stored pair's line are written; the number of lines is the number of named sections plus the number of stored pairs. |
| `Serializer.Render` | ini.go:236-252 | When no written line runs into the line separator, splitting the output on it gives the written lines back and then one empty piece. |
| `RoundTrip.SplitDocument` | ini.go:273 | Splitting the written text on the line separator gives the written lines and a final empty piece. |
| `RoundTrip.ClassifyDocument` | ini.go:274-302 | The written lines classify as the default pairs, then each named section's header followed by its pairs. |
| `RoundTrip.WrittenKinds` | ini.go:264-302 | The written text, split and classified, is the default pairs, the named blocks and one blank line. |
| `RoundTrip.ParseNamedKinds` | ini.go:285-302 | Reading the named blocks installs each written named section with exactly its pairs. |
| `RoundTrip.WriteThenParse` | ini.go:236-305 | Parsing the written text gives no error, the default section exactly as written, every written named section exactly as written, and every other section as it was before. |
| `RoundTrip.WrittenPairsReadBack` | ini.go:236-305 | After the round trip every (section, key) of a written section reads back as it did before writing, found or not found. |
| `Goini.Ini.constructor` | ini.go:37-46 | No sections, the default separators "\n" and "=", and both switches off. |
| `Goini.Ini.ParseFile` | ini.go:50-58 | A missing file gives the read error and changes nothing; otherwise both switches are on and the sections and the error are those of parsing the contents with the default separators. |
| `Goini.Ini.Parse` | ini.go:62-64 | The separators are recorded, the switches kept, and the sections and error are those of ParseData with the current switches. |
| `Goini.Ini.ParseIni` | ini.go:264-305 | The method's loop ends with the sections and the error ParseData specifies. |
| `Goini.Ini.ReadLines` | ini.go:274-304 | The loop over the lines computes ParseKinds of the classified lines from the default section. |
| `Goini.Ini.Reset` | ini.go:67-70 | Every section is dropped; separators and switches stay. |
| `Goini.Ini.SetSkipCommits` | ini.go:73-75 | Only the comment switch changes. |
| `Goini.Ini.SetParseSection` | ini.go:78-80 | Only the section switch changes. |
| `Goini.Ini.SectionGet` | ini.go:108-113 | Found exactly when the section exists and holds the key; the value, or "" when not found. |
| `Goini.Ini.Get` | ini.go:84-86 | SectionGet on the default section: found exactly when the default section holds the key; the value, or "" when not found. |
| `Goini.Ini.SectionGetInt` | ini.go:116-126 | Found exactly when the key is present; the Atoi value when it parses, 0 otherwise; always in the 64-bit range. |
| `Goini.Ini.GetInt` | ini.go:89-91 | SectionGetInt on the default section: 0 when the key is absent or its value does not parse; always in the 64-bit range. |
| `Goini.Ini.SectionGetBool` | ini.go:142-154 | Found exactly when the value is one of the 24 literals; true exactly for the 12 true literals; (false, false) otherwise. |
| `Goini.Ini.GetBool` | ini.go:102-104 | SectionGetBool on the default section: true exactly when the default section holds the key with one of the 12 true literals. |
| `Goini.Ini.GetKvmap` | ini.go:160-163 | The section's map and true, or the empty map and false. |
| `Goini.Ini.GetAll` | ini.go:166-168 | The object's own section map, empty sections included, so every (section, key) reads in it as SectionGet reads it. |
| `Goini.Ini.SectionSet` | ini.go:218-225 | The section is created when absent, the pair reads back as stored, every other pair reads as before, settings unchanged. |
| `Goini.Ini.Set` | ini.go:172-174 | SectionSet on the default section; the key reads back with the value. |
| `Goini.Ini.SectionSetInt` | ini.go:196-198 | Stores the Itoa text, which SectionGetInt reads back as the integer. |
| `Goini.Ini.SetInt` | ini.go:178-180 | SetInt on the default section reads back through GetInt. |
| `Goini.Ini.SectionSetBool` | ini.go:208-214 | Stores "true" or "false", which SectionGetBool reads back as the boolean. |
| `Goini.Ini.SetBool` | ini.go:190-192 | SetBool on the default section reads back through GetBool. |
| `Goini.Ini.Delete` | ini.go:228-233 | The key reads as absent, every other pair as before, and no section is added or removed. |
| `Goini.Ini.WriteKvmap` | ini.go:255-262 | The output is one `k + kvsep + v` line per pair, each followed by the line separator, in an order listing every key once. |
| `Goini.Ini.Write` | ini.go:236-252 | The output is the default section's lines, then each named section's header and lines, for an order listing every named section once and, per section, every key once. |
| `Wini.Ini.constructor` | wini.go:28-35 | No sections and the default separators. |
| `Wini.Ini.ParseFile` | wini.go:39-46 | A missing file gives the read error and changes nothing; otherwise the contents are parsed with the default separators, headers and both comment characters recognised. |
| `Wini.Ini.Parse` | wini.go:50-52 | The sections and error are those of ParseData with both switches on. |
| `Wini.Ini.ParseIni` | wini.go:77-118 | The separators are recorded and the method ends with what ParseData with both switches on specifies. |
| `Wini.Ini.ReadLines` | wini.go:87-117 | The loop with the hard-wired comment and header tests computes ParseKinds with both switches on. |
| `Wini.Ini.SectionGet` | wini.go:63-68 | Found exactly when the section exists and holds the key; the value, or "" when not found. |
| `Wini.Ini.Get` | wini.go:56-59 | The lookup in the default section. |
| `Wini.Ini.GetKvmap` | wini.go:70-73 | The section's map and true, or the empty map and false. |
| `Wini.SameAsIniParser` | wini.go:94-104 | Given the same data and separators, the wini.go parser and the ini.go parser with both switches on end with the same sections and the same error. |
| `Inherited.MergeAt` | inheritedini.go:41-50 | After a merge a section is present exactly when the receiver had it or `from` has it with at least one pair. |
| `Inherited.MergeLookup` | inheritedini.go:41-50 | Pair by pair: with override the incoming value wins, without it the receiver's value wins, and a pair found on neither side stays absent. |
| `Inherited.MergeKeepsExisting` | inheritedini.go:44-47 | Without override, no pair the receiver already holds changes. |
| `Inherited.MergeOverrides` | inheritedini.go:44-47 | With override, every pair of `from` ends with `from`'s value. |
| `Inherited.MergeUnion` | inheritedini.go:41-50 | Either way, the pairs afterwards are exactly those of the receiver and those of `from`. |
| `Inherited.MergeIdempotent` | inheritedini.go:41-50 | Merging the same `from` a second time changes nothing. |
| `Inherited.MergeSelf` | inheritedini.go:41-50 | Merging an object into itself changes nothing. |
| `Inherited.MergeNothing` | inheritedini.go:41-50 | Merging an object without sections changes nothing. |
| `Inherited.MergeEmptySection` | inheritedini.go:42-43 | A section of `from` without pairs makes no difference: the inner loop never runs and SectionSet is never called. |
| `Inherited.MergeSectionOf` | inheritedini.go:41-50 | A section's pairs after a merge combine the receiver's and `from`'s pairs of that section, present or not. |
| `Inherited.MergeSections` | inheritedini.go:41-50 | A merge never drops a section of the receiver; `MergeAt` and `MergeLookup` state the exact result. |
| `Inherited.Merge` | inheritedini.go:41-50 | The nested loops leave the receiver with the specified merge and leave `from` and all settings unchanged, even when `from` is the receiver. |
| `Inherited.MergeKvmap` | inheritedini.go:43-49 | The inner loop over one section's pairs adds that section to what has been merged. |
| `Inherited.DirOfSplits` | inheritedini.go:57 | The directory part of a path is a prefix that is empty or ends in '/', and the rest holds no '/'. |
| `Inherited.RealPathRule` | inheritedini.go:52-59 | An absolute parent path is used as it is; a relative one is resolved in the directory of the current file. |
| `Inherited.RealPath` | inheritedini.go:52-59 | An absolute parent path is used as it is; the result is absolute exactly when the parent path or the current file's path is. |
| `Inherited.FlattenCons` | inheritedini.go:35 | A loaded chain is the child merged, without override, with its loaded parents. |
| `Inherited.Flatten` | inheritedini.go:35 | Every section of the first file of the chain survives, and each of its pairs keeps the first file's value. |
| `Inherited.LoadSpec` | inheritedini.go:17-37 | A successful load yields a non-empty chain that starts with the file's own parsed sections. |
| `Inherited.LoadInheritedIni` | inheritedini.go:17-37 | A fresh object holding the merged chain, with the default separators and both switches on as ParseFile leaves them; or the error of the first file or parent that fails (the parent's path appended); or exhaustion of the level bound. |
| `Inherited.Load` | inheritedini.go:17-37 | The same, against the parses of the files given as a ghost argument. |
| `Inherited.OpenFile` | inheritedini.go:18-22 | A new object after ParseFile holds the file's parse or the read error; when the parse succeeds it has the default separators and both switches on. |
| `Inherited.LoadParent` | inheritedini.go:24-36 | Once the file is parsed and names a parent, the parent is loaded at the resolved path and merged in without override, or its error is passed on with the path appended; the object's separators and switches are left as ParseFile set them. |
| `Inherited.LoadWithoutParent` | inheritedini.go:24-27 | A file without `inherited_from` loads as its own sections, whatever the bound. |
| `Inherited.ChildTakesPrecedence` | inheritedini.go:35 | Every pair of the child file keeps the child's value after loading. |
| `Inherited.ParentFillsGaps` | inheritedini.go:35 | A pair the child lacks is taken from the loaded parent chain, and the result holds exactly the pairs of the child and of the parent chain. |
| `Inherited.ParentErrorNamesPath` | inheritedini.go:30-33 | A parent that fails to load fails the whole load with the parent's error followed by " " and the parent's resolved path. |
| `Inherited.FuelMonotone` | inheritedini.go:30 | A larger level bound never changes an answer reached with a smaller one. |
| `Inherited.InheritOutOfFuel` | inheritedini.go:30-33 | A chain runs out of levels exactly when its parent does. |
| `Inherited.LoadUnfold` | inheritedini.go:17-37 | One level of loading: the parse error, the file alone without `inherited_from`, or the file with its parent loaded. |
| `Inherited.SelfInheritanceNeverEnds` | inheritedini.go:29-30 | A file that names itself as its parent never finishes loading, whatever the bound. |

## Left out

- `GetFloat`, `SectionGetFloat`, `SetFloat` and `SectionSetFloat`: floating point (`strconv.ParseFloat` and `FormatFloat`) is not modelled.
- File I/O: `ioutil.ReadFile` becomes a map from path to contents. Every failure reads as a missing file, with a fixed error text.
- `Write`'s `io.Writer`, `bufio.Writer` and `Flush`: `Write` returns the text instead, and write errors are not modelled.
- Go's map iteration order: `Write`, `write` and `Merge` pick an order nondeterministically. The order `Write` picks is returned as ghost values, and `Merge`'s result does not depend on it.
- `filepath.Join` and `filepath.Clean`: a relative parent path is appended to the directory part without normalising `.`, `..` or doubled slashes. `filepath.IsAbs` means a leading '/', as on Unix.
- Bytes and Unicode: a Go byte is a Dafny `char`. `Text.TrimSpace` trims only the ASCII white-space bytes, not Unicode spaces. An empty line separator splits into single bytes, not UTF-8 sequences.
- `strconv.Atoi`: the text is read as an optional sign and decimal digits. Go's error values are reduced to "no value".
- Go's `int` is taken as 64 bits wide.
- Inherited.LoadInheritedIni: `LoadInheritedINI` recurses without limit and never ends on a cycle of `inherited_from` files. The model takes a bound on the number of parent levels and reports exhaustion instead; `Inherited.SelfInheritanceNeverEnds` and `Inherited.FuelMonotone` relate the two.
- Aliasing of the maps that `GetKvmap` and `GetAll` return: Dafny maps are values. Updating a returned map in Go changes the object; here only `Delete`'s effect through that alias is modelled.
- The `log` import of `inheritedini.go` and the example and test programs are not part of this model; only the `appext=ab=cd` test vector is.
