/**
 * The byte-slice helpers the parser relies on: Go's bytes.TrimSpace,
 * bytes.Index and bytes.Split.  A byte slice and a Go string are both
 * modelled as a `string`, one character per byte.
 */
module Text {

  /** The ASCII white space that bytes.TrimSpace removes. */
  predicate IsSpace(c: char) {
    c == ' ' || c == '\t' || c == '\n' || c == '\r' || c == '\U{0B}' || c == '\U{0C}'
  }

  predicate AllSpace(s: string) {
    forall i | 0 <= i < |s| :: IsSpace(s[i])
  }

  /** `s` has no white space at either end (or is empty). */
  predicate Trimmed(s: string) {
    s == [] || (!IsSpace(s[0]) && !IsSpace(s[|s| - 1]))
  }

  function TrimLeft(s: string): (r: string)
    ensures |r| <= |s|
    ensures r == [] || !IsSpace(r[0])
  {
    if s != [] && IsSpace(s[0]) then TrimLeft(s[1..]) else s
  }

  function TrimRight(s: string): (r: string)
    ensures |r| <= |s|
    ensures r == [] || !IsSpace(r[|r| - 1])
  {
    if s != [] && IsSpace(s[|s| - 1]) then TrimRight(s[..|s| - 1]) else s
  }

  lemma {:induction false} TrimLeftSlice(s: string)
    ensures TrimLeft(s) == s[|s| - |TrimLeft(s)|..] && AllSpace(s[..|s| - |TrimLeft(s)|])
  {
    if s != [] && IsSpace(s[0]) {
      TrimLeftSlice(s[1..]);
    }
  }

  lemma {:induction false} TrimRightSlice(s: string)
    ensures TrimRight(s) == s[..|TrimRight(s)|] && AllSpace(s[|TrimRight(s)|..])
  {
    if s != [] && IsSpace(s[|s| - 1]) {
      TrimRightSlice(s[..|s| - 1]);
    }
  }

  /** `r` is what is left of `s` once the white space `s[..i]` and the white
      space after `i + |r|` are dropped. */
  predicate TrimmedAt(s: string, r: string, i: int) {
    0 <= i <= |s| - |r| && r == s[i..i + |r|] && AllSpace(s[..i]) && AllSpace(s[i + |r|..])
  }

  /** bytes.TrimSpace: the slice of `s` left after dropping white space at both ends. */
  function TrimSpace(s: string): (r: string)
    ensures Trimmed(r)
    ensures |r| <= |s|
    ensures Trimmed(s) ==> r == s
  {
    TrimRightSlice(TrimLeft(s));
    TrimRight(TrimLeft(s))
  }

  /** TrimSpace removes white space only, and only at the two ends. */
  lemma TrimSpaceIsSlice(s: string)
    ensures exists i :: TrimmedAt(s, TrimSpace(s), i)
  {
    var l := TrimLeft(s);
    var r := TrimRight(l);
    var i := |s| - |l|;
    TrimLeftSlice(s);
    TrimRightSlice(l);
    assert s[i + |r|..] == l[|r|..];
    assert TrimSpace(s) == r;
    assert TrimmedAt(s, r, i);
  }

  /** The separator `sep` occurs in `s` at position `i`. */
  predicate OccursAt(s: string, sep: string, i: int) {
    0 <= i && i + |sep| <= |s| && s[i..i + |sep|] == sep
  }

  lemma OccursShift(s: string, sep: string, j: int)
    requires |s| > 0 && 0 <= j
    ensures OccursAt(s[1..], sep, j) <==> OccursAt(s, sep, j + 1)
  {
    if 0 <= j && j + 1 + |sep| <= |s| {
      assert s[1..][j..j + |sep|] == s[j + 1..j + 1 + |sep|];
    }
  }

  /** bytes.Index: the first position at which `sep` occurs in `s`, or -1. */
  function Index(s: string, sep: string): (r: int)
    ensures -1 <= r <= |s| - |sep| || r == -1
    ensures r >= 0 ==> OccursAt(s, sep, r)
    ensures r >= 0 ==> forall j | 0 <= j < r :: !OccursAt(s, sep, j)
    ensures r < 0 ==> r == -1 && forall j :: !OccursAt(s, sep, j)
    decreases |s|
  {
    if |s| < |sep| then -1
    else if s[..|sep|] == sep then 0
    else
      var t := Index(s[1..], sep);
      IndexStep(s, sep, t);
      if t < 0 then -1 else t + 1
  }

  /** One step of the search: `s` does not start with `sep`, and `t` is the
      result of the search in `s[1..]`. */
  lemma IndexStep(s: string, sep: string, t: int)
    requires |s| >= |sep| > 0 && !OccursAt(s, sep, 0)
    requires t >= 0 ==> OccursAt(s[1..], sep, t) && forall j | 0 <= j < t :: !OccursAt(s[1..], sep, j)
    requires t < 0 ==> forall j :: !OccursAt(s[1..], sep, j)
    ensures t >= 0 ==> OccursAt(s, sep, t + 1) && forall j | 0 <= j < t + 1 :: !OccursAt(s, sep, j)
    ensures t < 0 ==> forall j :: !OccursAt(s, sep, j)
  {
    if t >= 0 {
      OccursShift(s, sep, t);
    }
    forall j | 1 <= j && (t < 0 || j < t + 1) ensures !OccursAt(s, sep, j) {
      OccursShift(s, sep, j - 1);
    }
  }

  /** The first occurrence is unique: any occurrence with none before it is what Index returns. */
  lemma IndexIsFirst(s: string, sep: string, p: int)
    requires OccursAt(s, sep, p)
    requires forall j | 0 <= j < p :: !OccursAt(s, sep, j)
    ensures Index(s, sep) == p
  {
  }

  /** Text appended after the first occurrence does not move it. */
  lemma {:induction false} IndexOfExtension(a: string, b: string, sep: string)
    requires Index(a, sep) >= 0
    ensures Index(a + b, sep) == Index(a, sep)
  {
    var p := Index(a, sep);
    assert (a + b)[p..p + |sep|] == a[p..p + |sep|];
    forall j | 0 <= j < p ensures !OccursAt(a + b, sep, j) {
      assert !OccursAt(a, sep, j);
      assert (a + b)[j..j + |sep|] == a[j..j + |sep|];
    }
    IndexIsFirst(a + b, sep, p);
  }

  /** `parts` joined with `sep` between consecutive parts (the inverse of Split). */
  function JoinWith(parts: seq<string>, sep: string): string {
    if |parts| == 0 then ""
    else if |parts| == 1 then parts[0]
    else parts[0] + sep + JoinWith(parts[1..], sep)
  }

  /** Every character of `s` as a piece of its own: what bytes.Split does
      with an empty separator (nothing at all for an empty `s`). */
  function Explode(s: string): (r: seq<string>)
    ensures |r| == |s| && JoinWith(r, "") == s
    ensures forall i | 0 <= i < |r| :: r[i] == [s[i]]
  {
    if s == [] then [] else ExplodeJoin(s); [s[..1]] + Explode(s[1..])
  }

  lemma ExplodeJoin(s: string)
    requires s != []
    ensures s == s[..1] + "" + s[1..]
  {
  }

  /** bytes.Split: the pieces of `s` around each non-overlapping occurrence of
      `sep`, scanning left to right; empty pieces are kept.  An empty
      separator splits after every character. */
  function Split(s: string, sep: string): (r: seq<string>)
    ensures sep != [] ==> |r| >= 1
    ensures sep != [] ==> forall i | 0 <= i < |r| :: Index(r[i], sep) == -1
    ensures sep == [] ==> |r| == |s|
    ensures JoinWith(r, sep) == s
    decreases |s|
  {
    if sep == [] then Explode(s) else
    var i := Index(s, sep);
    if i < 0 then [s]
    else
      var head := s[..i];
      assert Index(head, sep) == -1 by {
        forall j ensures !OccursAt(head, sep, j) {
          if OccursAt(head, sep, j) {
            assert head[j..j + |sep|] == s[j..j + |sep|];
            assert OccursAt(s, sep, j);
          }
        }
      }
      var rest := Split(s[i + |sep|..], sep);
      assert s == head + sep + s[i + |sep|..];
      [head] + rest
  }

  /** With an empty separator every piece is one character of `s`, in order. */
  lemma SplitEmptySeparator(s: string)
    ensures |Split(s, "")| == |s|
    ensures forall i | 0 <= i < |s| :: Split(s, "")[i] == [s[i]]
  {
  }

  /** Each piece of `r` but the last ends where `sep` first occurs in the
      text that remains from that piece on. */
  predicate CutsAtFirst(r: seq<string>, sep: string) {
    forall i | 0 <= i < |r| - 1 :: Index(JoinWith(r[i..], sep), sep) == |r[i]|
  }

  lemma CutsAtFirstCons(head: string, tail: seq<string>, sep: string)
    requires CutsAtFirst(tail, sep)
    requires tail != [] ==> Index(JoinWith([head] + tail, sep), sep) == |head|
    ensures CutsAtFirst([head] + tail, sep)
  {
    var r := [head] + tail;
    forall i | 0 <= i < |r| - 1 ensures Index(JoinWith(r[i..], sep), sep) == |r[i]| {
      if i == 0 {
        assert r[i..] == r;
      } else {
        assert r[i..] == tail[i - 1..];
      }
    }
  }

  /** Split cuts at the leftmost occurrence every time.  With the join and
      the pieces free of `sep`, this leaves only one possible answer, even
      for a separator that overlaps itself. */
  lemma {:induction false} SplitCutsAtFirst(s: string, sep: string)
    requires sep != []
    ensures CutsAtFirst(Split(s, sep), sep)
    decreases |s|
  {
    var p := Index(s, sep);
    if p >= 0 {
      var rest := s[p + |sep|..];
      SplitCutsAtFirst(rest, sep);
      assert Split(s, sep) == [s[..p]] + Split(rest, sep);
      CutsAtFirstCons(s[..p], Split(rest, sep), sep);
    }
  }

  lemma CutsAtFirstTail(r: seq<string>, sep: string)
    requires |r| >= 1 && CutsAtFirst(r, sep)
    ensures CutsAtFirst(r[1..], sep)
  {
    forall i | 0 <= i < |r[1..]| - 1 ensures Index(JoinWith(r[1..][i..], sep), sep) == |r[1..][i]| {
      assert r[1..][i..] == r[i + 1..];
    }
  }

  /** Where the first occurrence is, Split cuts. */
  lemma SplitAt(s: string, sep: string, p: int)
    requires sep != [] && p >= 0 && Index(s, sep) == p
    ensures Split(s, sep) == [s[..p]] + Split(s[p + |sep|..], sep)
  {
  }

  /** One step of the converse: when the pieces after the first are what
      Split makes of the text after the first cut, all of them are. */
  lemma SplitUniqueStep(s: string, sep: string, r: seq<string>)
    requires sep != [] && |r| > 1 && JoinWith(r, sep) == s && CutsAtFirst(r, sep)
    requires r[1..] == Split(JoinWith(r[1..], sep), sep)
    ensures r == Split(s, sep)
  {
    var p := |r[0]|;
    var more := JoinWith(r[1..], sep);
    assert Index(s, sep) == p by {
      assert r[0..] == r;
    }
    assert s[..p] == r[0] && s[p + |sep|..] == more by {
      assert s == r[0] + sep + more;
    }
    SplitAt(s, sep, p);
    assert r == [r[0]] + r[1..];
  }

  /** The converse: pieces that join to `s`, hold no `sep` and cut at the
      first occurrence every time are exactly Split's. */
  lemma {:induction false} SplitUnique(s: string, sep: string, r: seq<string>)
    requires sep != [] && |r| >= 1 && JoinWith(r, sep) == s
    requires forall i | 0 <= i < |r| :: Index(r[i], sep) == -1
    requires CutsAtFirst(r, sep)
    ensures r == Split(s, sep)
    decreases |r|
  {
    if |r| > 1 {
      CutsAtFirstTail(r, sep);
      SplitUnique(JoinWith(r[1..], sep), sep, r[1..]);
      SplitUniqueStep(s, sep, r);
    }
  }

  /** Each line followed by `sep`: the text a writer that ends every line
      with the separator produces. */
  function Terminated(lines: seq<string>, sep: string): string {
    if lines == [] then "" else lines[0] + sep + Terminated(lines[1..], sep)
  }

  lemma {:induction false} TerminatedAppend(a: seq<string>, b: seq<string>, sep: string)
    ensures Terminated(a + b, sep) == Terminated(a, sep) + Terminated(b, sep)
  {
    if a != [] {
      assert (a + b)[0] == a[0] && (a + b)[1..] == a[1..] + b;
      TerminatedAppend(a[1..], b, sep);
      calc {
        Terminated(a + b, sep);
        a[0] + sep + Terminated(a[1..] + b, sep);
        a[0] + sep + (Terminated(a[1..], sep) + Terminated(b, sep));
        (a[0] + sep + Terminated(a[1..], sep)) + Terminated(b, sep);
      }
    } else {
      assert a + b == b;
    }
  }

  /** Terminating a block's lines after a prefix: the block's first line
      and the rest follow the prefix's text. */
  lemma TerminatedBlock(head: seq<string>, front: seq<string>, first: string, rest: seq<string>, sep: string)
    ensures Terminated(head + (front + [first] + rest), sep)
      == Terminated(head + front, sep) + (first + sep) + Terminated(rest, sep)
  {
    assert head + (front + [first] + rest) == (head + front + [first]) + rest;
    TerminatedAppend(head + front + [first], rest, sep);
    TerminatedAppend(head + front, [first], sep);
  }

  lemma SplitAfterLine(l: string, sep: string, rest: string)
    requires |sep| > 0 && Index(l + sep, sep) == |l|
    ensures Split(l + sep + rest, sep) == [l] + Split(rest, sep)
  {
    IndexOfExtension(l + sep, rest, sep);
    var t := l + sep + rest;
    assert t[..|l|] == l;
    assert t[|l| + |sep|..] == rest;
  }

  lemma ConsAppend(lines: seq<string>, last: string)
    requires lines != []
    ensures [lines[0]] + (lines[1..] + [last]) == lines + [last]
  {
  }

  lemma SplitEmpty(sep: string)
    requires |sep| > 0
    ensures Split("", sep) == [""]
  {
    assert Index("", sep) == -1;
  }

  /** Splitting terminated text gives back its lines, plus the empty piece
      after the last separator, provided no line contains the separator and
      none runs into it (the first occurrence in `line + sep` is the one
      appended). */
  lemma {:induction false} SplitTerminated(lines: seq<string>, sep: string)
    requires |sep| > 0
    requires forall i | 0 <= i < |lines| :: Index(lines[i] + sep, sep) == |lines[i]|
    ensures Split(Terminated(lines, sep), sep) == lines + [""]
  {
    if lines == [] {
      SplitEmpty(sep);
    } else {
      var rest := lines[1..];
      forall i | 0 <= i < |rest| ensures Index(rest[i] + sep, sep) == |rest[i]| {
        assert rest[i] == lines[i + 1];
      }
      SplitTerminated(rest, sep);
      SplitAfterLine(lines[0], sep, Terminated(rest, sep));
      ConsAppend(lines, "");
    }
  }
}
