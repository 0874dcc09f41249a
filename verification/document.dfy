/**
 * The parsed document of ini.go: a map from section name to a map from key
 * to value.  The default (unsectioned) part of the file is the section
 * named "".  These are the value-level meanings of the INI accessors and
 * mutators; the class in module Goini delegates to them.
 */
module Document {
  import opened Wrappers
  import Strconv

  type Kvmap = map<string, string>
  type SectionMap = map<string, Kvmap>

  const DefaultSection: string := ""
  const DefaultLineSeparator: string := "\n"
  const DefaultKeyValueSeparator: string := "="

  /** The key map of `section`, or the empty map when the section is absent. */
  function SectionOf(secs: SectionMap, section: string): Kvmap {
    if section in secs then secs[section] else map[]
  }

  /** The (section, key) pair is stored. */
  predicate Has(secs: SectionMap, section: string, key: string) {
    section in secs && key in secs[section]
  }

  /** SectionGet: the stored value and true, or "" and false when either the
      section or the key is absent. */
  function Lookup(secs: SectionMap, section: string, key: string): (r: (string, bool))
    ensures r.1 <==> Has(secs, section, key)
    ensures r.1 ==> r.0 == secs[section][key]
    ensures !r.1 ==> r.0 == ""
  {
    if Has(secs, section, key) then (secs[section][key], true) else ("", false)
  }

  /** SectionGetInt: a stored value that strconv.Atoi rejects still reports
      presence, with value 0. */
  function LookupInt(secs: SectionMap, section: string, key: string): (r: (int, bool))
    ensures r.1 <==> Has(secs, section, key)
    ensures r.0 != 0 ==> Has(secs, section, key) && Strconv.Atoi(secs[section][key]) == Some(r.0)
    ensures Has(secs, section, key) && Strconv.Atoi(secs[section][key]).Some? ==>
              r.0 == Strconv.Atoi(secs[section][key]).value
  {
    var (v, ok) := Lookup(secs, section, key);
    if ok && Strconv.Atoi(v).Some? then (Strconv.Atoi(v).value, true) else (0, ok)
  }

  /** The literals SectionGetBool reads as true. */
  const TrueLiterals: set<string> := {"1", "t", "T", "true", "TRUE", "True", "on", "ON", "On", "yes", "YES", "Yes"}

  /** The literals SectionGetBool reads as false. */
  const FalseLiterals: set<string> := {"0", "f", "F", "false", "FALSE", "False", "off", "OFF", "Off", "no", "NO", "No"}

  /** SectionGetBool: unlike the integer view, an unrecognised value reports
      absence. */
  function LookupBool(secs: SectionMap, section: string, key: string): (r: (bool, bool))
    ensures r.1 <==> Has(secs, section, key) && (secs[section][key] in TrueLiterals + FalseLiterals)
    ensures r.0 <==> Has(secs, section, key) && secs[section][key] in TrueLiterals
  {
    var (v, ok) := Lookup(secs, section, key);
    if ok && v in TrueLiterals then (true, true)
    else if ok && v in FalseLiterals then (false, true)
    else (false, false)
  }

  /** The text SectionSetBool stores. */
  function BoolText(b: bool): (s: string)
    ensures s in (if b then TrueLiterals else FalseLiterals)
  {
    if b then "true" else "false"
  }

  /** SectionSet: the section is created if absent and the key is upserted;
      every other (section, key) keeps its lookup result. */
  function WithValue(secs: SectionMap, section: string, key: string, value: string): (r: SectionMap)
    ensures Lookup(r, section, key) == (value, true)
    ensures forall s, k | s != section || k != key :: Lookup(r, s, k) == Lookup(secs, s, k)
    ensures r.Keys == secs.Keys + {section}
    ensures forall s | s in secs && s != section :: r[s] == secs[s]
  {
    secs[section := SectionOf(secs, section)[key := value]]
  }

  /** Delete: the key goes from an existing section (which stays, even if now
      empty); deleting from an absent section changes nothing. */
  function WithoutKey(secs: SectionMap, section: string, key: string): (r: SectionMap)
    ensures section !in secs ==> r == secs
    ensures Lookup(r, section, key) == ("", false)
    ensures forall s, k | s != section || k != key :: Lookup(r, s, k) == Lookup(secs, s, k)
    ensures r.Keys == secs.Keys
  {
    if section in secs then secs[section := secs[section] - {key}] else secs
  }

  /** SectionSetInt then SectionGetInt reads back the same Go int. */
  lemma IntReadsBack(secs: SectionMap, section: string, key: string, n: Strconv.Int64)
    ensures LookupInt(WithValue(secs, section, key, Strconv.Itoa(n)), section, key) == (n, true)
  {
    Strconv.AtoiOfItoa(n);
  }

  /** SectionSetBool then SectionGetBool reads back the same boolean. */
  lemma BoolReadsBack(secs: SectionMap, section: string, key: string, b: bool)
    ensures LookupBool(WithValue(secs, section, key, BoolText(b)), section, key) == (b, true)
  {
  }
}
