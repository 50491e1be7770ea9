/**
 * The string built-ins the source relies on, with the semantics of Python's
 * `str` methods and JavaScript's `String.prototype` methods for a non-empty
 * separator: strip/trim, find/indexOf, rfind, count, replace, split, join,
 * and decimal formatting and parsing of integers.
 */
module Strings {
  import opened Wrappers

  /** The whitespace characters that strip() and trim() remove (ASCII only). */
  predicate IsSpace(c: char) {
    c == ' ' || c == '\t' || c == '\n' || c == '\r' || c == '\U{000B}' || c == '\U{000C}'
  }

  predicate IsTrimmed(s: string) {
    s == [] || (!IsSpace(s[0]) && !IsSpace(s[|s| - 1]))
  }

  /** Number of whitespace characters at the start of `s`. */
  function LeadingSpace(s: string): (n: nat)
    ensures n <= |s|
    ensures n < |s| ==> !IsSpace(s[n])
  {
    if |s| > 0 && IsSpace(s[0]) then 1 + LeadingSpace(s[1..]) else 0
  }

  /** The leading run counted by LeadingSpace is all whitespace. */
  lemma {:induction false} LeadingSpaceAll(s: string)
    ensures forall i :: 0 <= i < LeadingSpace(s) ==> IsSpace(s[i])
  {
    if |s| > 0 && IsSpace(s[0]) {
      LeadingSpaceAll(s[1..]);
      assert forall i :: 1 <= i < LeadingSpace(s) ==> s[i] == s[1..][i - 1];
    }
  }

  /** Number of whitespace characters at the end of `s`. */
  function TrailingSpace(s: string): (n: nat)
    ensures n <= |s|
    ensures n < |s| ==> !IsSpace(s[|s| - 1 - n])
  {
    if |s| > 0 && IsSpace(s[|s| - 1]) then 1 + TrailingSpace(s[..|s| - 1]) else 0
  }

  /** The trailing run counted by TrailingSpace is all whitespace. */
  lemma {:induction false} TrailingSpaceAll(s: string)
    ensures forall i :: |s| - TrailingSpace(s) <= i < |s| ==> IsSpace(s[i])
  {
    if |s| > 0 && IsSpace(s[|s| - 1]) {
      TrailingSpaceAll(s[..|s| - 1]);
      assert forall i :: |s| - TrailingSpace(s) <= i < |s| - 1 ==> s[i] == s[..|s| - 1][i];
    }
  }

  /** Python's `str.strip()` and JavaScript's `String.prototype.trim()`. */
  function Trim(s: string): (r: string)
    ensures IsTrimmed(r)
    ensures LeadingSpace(s) + |r| <= |s| && r == s[LeadingSpace(s)..LeadingSpace(s) + |r|]
  {
    var a := LeadingSpace(s);
    var t := s[a..];
    var b := TrailingSpace(t);
    assert b < |t| ==> !IsSpace(t[0]);
    var r := t[..|t| - b];
    assert r == s[a..a + |r|];
    r
  }

  /** Trim removes whitespace only: what lies around the result is all whitespace. */
  lemma TrimDropsSpace(s: string)
    ensures forall k :: 0 <= k < LeadingSpace(s) ==> IsSpace(s[k])
    ensures forall k :: LeadingSpace(s) + |Trim(s)| <= k < |s| ==> IsSpace(s[k])
  {
    var a := LeadingSpace(s);
    var t := s[a..];
    LeadingSpaceAll(s);
    TrailingSpaceAll(t);
    assert forall k :: a + |Trim(s)| <= k < |s| ==> s[k] == t[k - a];
  }

  lemma TrimOfTrimmed(s: string)
    requires IsTrimmed(s)
    ensures Trim(s) == s
  {
  }

  predicate OccursAt(s: string, pat: string, i: int) {
    0 <= i && i + |pat| <= |s| && s[i..i + |pat|] == pat
  }

  /** Python's `s.find(pat, from)`: the first occurrence at or after `from`. */
  function FindFrom(s: string, pat: string, from: nat): (r: Option<nat>)
    decreases |s| - from
    ensures r.Some? ==> from <= r.value && OccursAt(s, pat, r.value)
  {
    if from + |pat| > |s| then None
    else if s[from..from + |pat|] == pat then Some(from)
    else FindFrom(s, pat, from + 1)
  }

  /** FindFrom finds the first occurrence: none lies between `from` and it, and none
      at all from `from` on when it finds nothing. */
  lemma {:induction false} FindFromFirst(s: string, pat: string, from: nat)
    ensures FindFrom(s, pat, from).Some? ==> forall k :: from <= k < FindFrom(s, pat, from).value ==> !OccursAt(s, pat, k)
    ensures FindFrom(s, pat, from).None? ==> forall k :: from <= k ==> !OccursAt(s, pat, k)
    decreases |s| - from
  {
    if from + |pat| <= |s| && s[from..from + |pat|] != pat {
      FindFromFirst(s, pat, from + 1);
    }
  }

  /** No occurrence lies between `from` and the one FindFrom finds. */
  lemma FindFromBefore(s: string, pat: string, from: nat, j: nat)
    requires FindFrom(s, pat, from) == Some(j)
    ensures from <= j && OccursAt(s, pat, j)
    ensures forall k :: from <= k < j ==> !OccursAt(s, pat, k)
  {
    FindFromFirst(s, pat, from);
  }

  /** Python's `s.find(pat)` and JavaScript's `s.indexOf(pat)`. */
  function Find(s: string, pat: string): Option<nat> {
    FindFrom(s, pat, 0)
  }

  predicate Contains(s: string, pat: string) {
    Find(s, pat).Some?
  }

  /** `s.endsWith(suffix)`, on strings and on UTF-16 code units alike. */
  predicate EndsWith<T(==)>(s: seq<T>, suffix: seq<T>) {
    |suffix| <= |s| && s[|s| - |suffix|..] == suffix
  }


  lemma ContainsIff(s: string, pat: string)
    ensures Contains(s, pat) <==> exists k :: OccursAt(s, pat, k)
  {
    FindFromFirst(s, pat, 0);
  }

  /** The last occurrence of `pat` starting strictly below `end`. */
  function RFindBelow(s: string, pat: string, end: nat): (r: Option<nat>)
    ensures r.Some? ==> r.value < end && OccursAt(s, pat, r.value)
  {
    if end == 0 then None
    else if OccursAt(s, pat, end - 1) then Some(end - 1)
    else RFindBelow(s, pat, end - 1)
  }

  /** RFindBelow finds the last occurrence below `end`. */
  lemma {:induction false} RFindBelowLast(s: string, pat: string, end: nat)
    ensures RFindBelow(s, pat, end).Some? ==> forall k :: RFindBelow(s, pat, end).value < k < end ==> !OccursAt(s, pat, k)
    ensures RFindBelow(s, pat, end).None? ==> forall k :: k < end ==> !OccursAt(s, pat, k)
  {
    if end > 0 && !OccursAt(s, pat, end - 1) {
      RFindBelowLast(s, pat, end - 1);
    }
  }

  /** Python's `s.rfind(pat)`: the last occurrence. */
  function RFind(s: string, pat: string): (r: Option<nat>)
    ensures r.Some? ==> OccursAt(s, pat, r.value)
  {
    RFindBelow(s, pat, |s| + 1)
  }

  /** RFind finds the last occurrence, and finds nothing only when there is none. */
  lemma RFindLast(s: string, pat: string)
    ensures RFind(s, pat).Some? ==> forall k :: RFind(s, pat).value < k ==> !OccursAt(s, pat, k)
    ensures RFind(s, pat).None? ==> forall k :: !OccursAt(s, pat, k)
  {
    RFindBelowLast(s, pat, |s| + 1);
  }

  /** Python's `s.rfind(pat, start)`: the last occurrence at or after `start`. */
  function RFindFrom(s: string, pat: string, start: nat): (r: Option<nat>)
    ensures r.Some? ==> start <= r.value && OccursAt(s, pat, r.value)
  {
    match RFind(s, pat)
    case Some(i) => if start <= i then Some(i) else None
    case None => None
  }

  /** RFindFrom finds nothing only when no occurrence starts at or after `start`. */
  lemma RFindFromNone(s: string, pat: string, start: nat)
    ensures RFindFrom(s, pat, start).None? ==> forall k :: start <= k ==> !OccursAt(s, pat, k)
  {
    RFindLast(s, pat);
  }

  /** The first occurrence at or after `from` is the one at `p` when none lies before it. */
  lemma FindFromIs(s: string, pat: string, from: nat, p: nat)
    requires from <= p && OccursAt(s, pat, p)
    requires forall k :: from <= k < p ==> !OccursAt(s, pat, k)
    ensures FindFrom(s, pat, from) == Some(p)
    decreases p - from
  {
    if from < p {
      assert !OccursAt(s, pat, from);
      FindFromIs(s, pat, from + 1, p);
    }
  }

  /** A pattern whose first character does not recur in it, such as an HTML-like tag. */
  predicate UniqueLead(pat: string) {
    |pat| > 0 && forall i :: 0 < i < |pat| ==> pat[i] != pat[0]
  }

  /** Two occurrences of a unique-lead pattern never overlap. */
  lemma NoOverlap(s: string, pat: string, p: nat)
    requires UniqueLead(pat) && OccursAt(s, pat, p)
    ensures forall q :: p < q < p + |pat| ==> !OccursAt(s, pat, q)
  {
    forall q | p < q < p + |pat| ensures !OccursAt(s, pat, q) {
      assert s[q] == pat[q - p] by { assert s[p..p + |pat|][q - p] == s[q]; }
      if q + |pat| <= |s| {
        assert s[q..q + |pat|][0] == s[q];
      }
    }
  }

  lemma SliceMiddle(a: string, b: string, d: string)
    ensures (a + b + d)[|a|..|a| + |b|] == b
  {
  }

  /** Python's `s[a:b]` for indices inside the string: empty when `a > b`. */
  function Slice(s: string, a: nat, b: nat): (r: string)
    requires a <= |s| && b <= |s|
    ensures a <= b ==> r == s[a..b]
    ensures b < a ==> r == []
  {
    if a <= b then s[a..b] else []
  }

  /** Python's `s.count(pat)`: non-overlapping occurrences, left to right, from `from`. */
  function CountFrom(s: string, pat: string, from: nat): (n: nat)
    requires |pat| > 0 && from <= |s|
    decreases |s| - from
  {
    match FindFrom(s, pat, from)
    case None => 0
    case Some(i) => 1 + CountFrom(s, pat, i + |pat|)
  }

  function Count(s: string, pat: string): nat
    requires |pat| > 0
  {
    CountFrom(s, pat, 0)
  }

  lemma CountZeroIff(s: string, pat: string)
    requires |pat| > 0
    ensures Count(s, pat) == 0 <==> !Contains(s, pat)
  {
  }

  lemma CountNoOccurrence(s: string, pat: string)
    requires |pat| > 0 && forall i :: !OccursAt(s, pat, i)
    ensures Count(s, pat) == 0
  {
    assert FindFrom(s, pat, 0).None?;
  }

  /** A pattern occurring at exactly one place is counted once. */
  lemma CountSingle(s: string, pat: string, p: nat)
    requires |pat| > 0 && OccursAt(s, pat, p)
    requires forall i :: OccursAt(s, pat, i) ==> i == p
    ensures Count(s, pat) == 1
  {
    FindFromIs(s, pat, 0, p);
    assert FindFrom(s, pat, p + |pat|).None?;
    assert CountFrom(s, pat, p + |pat|) == 0;
    assert Count(s, pat) == 1 + CountFrom(s, pat, p + |pat|);
  }

  /** A unique-lead pattern counted once occurs at exactly one place. */
  lemma CountOneOnly(s: string, pat: string, p: nat)
    requires UniqueLead(pat) && Count(s, pat) == 1 && OccursAt(s, pat, p)
    ensures forall q :: OccursAt(s, pat, q) ==> q == p
  {
    var f := FindFrom(s, pat, 0).value;
    var g := f + |pat|;
    assert FindFrom(s, pat, g).None? by { assert CountFrom(s, pat, g) == 0; }
    FindFromBefore(s, pat, 0, f);
    FindFromFirst(s, pat, g);
    NoOverlap(s, pat, f);
  }

  /** The last occurrence is the one at `p` when none lies after it. */
  lemma RFindIs(s: string, pat: string, p: nat)
    requires OccursAt(s, pat, p) && forall k :: p < k ==> !OccursAt(s, pat, k)
    ensures RFind(s, pat) == Some(p)
  {
    RFindLast(s, pat);
  }

  lemma SliceOfSlice(s: string, a: nat, b: nat, i: nat, j: nat)
    requires a <= b <= |s| && i <= j <= b - a
    ensures s[a..b][i..j] == s[a + i..a + j]
  {
    assert |s[a..b][i..j]| == |s[a + i..a + j]|;
    forall n | 0 <= n < j - i ensures s[a..b][i..j][n] == s[a + i..a + j][n] {
    }
  }

  /** A stretch holding no occurrence of `pat` yields a slice free of it. */
  lemma BetweenFree(s: string, pat: string, from: nat, to: nat)
    requires |pat| > 0 && from <= to <= |s|
    requires forall k :: from <= k < to ==> !OccursAt(s, pat, k)
    ensures !Contains(s[from..to], pat)
  {
    var t := s[from..to];
    forall k | 0 <= k && k + |pat| <= |t| ensures OccursAt(t, pat, k) == OccursAt(s, pat, from + k) {
      SliceOfSlice(s, from, to, k, k + |pat|);
    }
    ContainsIff(t, pat);
  }

  /** Trimming a string cannot make a pattern appear. */
  lemma TrimKeepsAbsent(m: string, pat: string)
    requires !Contains(m, pat)
    ensures !Contains(Trim(m), pat)
  {
    var c := Trim(m);
    var a := LeadingSpace(m);
    assert c == m[a..a + |c|];
    NotContainsSlice(m, pat, a, a + |c|);
  }

  lemma NotContainsSlice(s: string, pat: string, a: nat, b: nat)
    requires a <= b <= |s| && !Contains(s, pat)
    ensures !Contains(s[a..b], pat)
  {
    var t := s[a..b];
    forall k | 0 <= k && k + |pat| <= |t| ensures OccursAt(t, pat, k) == OccursAt(s, pat, a + k) {
      SliceOfSlice(s, a, b, k, k + |pat|);
    }
    ContainsIff(s, pat);
    ContainsIff(t, pat);
  }

  /** Appending a string that starts like `pat` cannot create an occurrence across the seam. */
  lemma NotContainsConcat(c: string, e: string, pat: string)
    requires UniqueLead(pat) && |e| > 0 && e[0] == pat[0]
    requires !Contains(c, pat) && !Contains(e, pat)
    ensures !Contains(c + e, pat)
  {
    var s := c + e;
    ContainsIff(c, pat);
    ContainsIff(e, pat);
    ContainsIff(s, pat);
    forall k | 0 <= k ensures !OccursAt(s, pat, k) {
      if k + |pat| <= |c| {
        assert s[k..k + |pat|] == c[k..k + |pat|];
        assert !OccursAt(c, pat, k);
      } else if k < |c| {
        assert s[|c|] == pat[0];
        assert pat[|c| - k] != pat[0];
        if k + |pat| <= |s| {
          assert s[k..k + |pat|][|c| - k] == s[|c|];
        }
      } else if k + |pat| <= |s| {
        assert s[k..k + |pat|] == e[k - |c|..k - |c| + |pat|];
        assert !OccursAt(e, pat, k - |c|);
      }
    }
  }

  predicate NoChar(s: string, ch: char) {
    forall k :: 0 <= k < |s| ==> s[k] != ch
  }

  lemma NoCharIff(s: string, ch: char)
    ensures NoChar(s, ch) <==> !Contains(s, [ch])
  {
    forall k | 0 <= k < |s| ensures OccursAt(s, [ch], k) <==> s[k] == ch {
      assert s[k..k + 1] == [s[k]];
    }
    ContainsIff(s, [ch]);
  }

  /** In `c + pat`, the appended copy is the first occurrence when `c` holds none. */
  lemma FindAppended(c: string, pat: string)
    requires UniqueLead(pat) && !Contains(c, pat)
    ensures Find(c + pat, pat) == Some(|c|)
  {
    var s := c + pat;
    ContainsIff(c, pat);
    assert OccursAt(s, pat, |c|) by { assert s[|c|..|c| + |pat|] == pat; }
    forall k | 0 <= k < |c| ensures !OccursAt(s, pat, k) {
      if k + |pat| <= |c| {
        assert s[k..k + |pat|] == c[k..k + |pat|];
        assert !OccursAt(c, pat, k);
      } else {
        assert s[|c|] == pat[0];
        assert pat[|c| - k] != pat[0];
        if k + |pat| <= |s| {
          assert s[k..k + |pat|][|c| - k] == s[|c|];
        }
      }
    }
    FindFromIs(s, pat, 0, |c|);
  }

  /** Python's `s.replace(pat, rep)`: every non-overlapping occurrence, left to right. */
  function ReplaceAll(s: string, pat: string, rep: string): string
    requires |pat| > 0
    decreases |s|
  {
    if |s| < |pat| then s
    else if s[..|pat|] == pat then rep + ReplaceAll(s[|pat|..], pat, rep)
    else [s[0]] + ReplaceAll(s[1..], pat, rep)
  }

  /** Splits `s` at every non-overlapping occurrence of `sep` (Python and JavaScript agree here). */
  function Split(s: string, sep: string): (parts: seq<string>)
    requires |sep| > 0
    ensures |parts| >= 1
    decreases |s|
  {
    match Find(s, sep)
    case None => [s]
    case Some(i) => [s[..i]] + Split(s[i + |sep|..], sep)
  }

  function Join(parts: seq<string>, sep: string): string {
    if |parts| == 0 then ""
    else if |parts| == 1 then parts[0]
    else parts[0] + sep + Join(parts[1..], sep)
  }

  lemma {:induction false} JoinSplit(s: string, sep: string)
    requires |sep| > 0
    ensures Join(Split(s, sep), sep) == s
    decreases |s|
  {
    var f := Find(s, sep);
    if f.Some? {
      var i := f.value;
      var rest := s[i + |sep|..];
      assert Split(s, sep) == [s[..i]] + Split(rest, sep);
      JoinSplit(rest, sep);
      assert s[i..i + |sep|] == sep;
      assert s == s[..i] + sep + rest;
    }
  }

  /** A piece before the first occurrence of `sep` holds no `sep`. */
  lemma PrefixBeforeFirst(s: string, sep: string, i: nat)
    requires |sep| > 0 && Find(s, sep) == Some(i)
    ensures !Contains(s[..i], sep)
  {
    var t := s[..i];
    FindFromFirst(s, sep, 0);
    ContainsIff(t, sep);
    forall k | 0 <= k && k + |sep| <= |t| ensures !OccursAt(t, sep, k) {
      assert t[k..k + |sep|] == s[k..k + |sep|];
      assert !OccursAt(s, sep, k);
    }
  }

  lemma {:induction false} SplitPiecesFree(s: string, sep: string)
    requires |sep| > 0
    ensures forall p :: p in Split(s, sep) ==> !Contains(p, sep)
    decreases |s|
  {
    match Find(s, sep)
    case None =>
    case Some(i) =>
      PrefixBeforeFirst(s, sep, i);
      SplitPiecesFree(s[i + |sep|..], sep);
  }

  /** The first occurrence of `sep` in `p + sep` is the appended one. */
  predicate SepFirstAfter(p: string, sep: string) {
    Find(p + sep, sep) == Some(|p|)
  }

  lemma SepFirstAfterOfFree(p: string, sep: string)
    requires |sep| > 0 && forall k :: 0 <= k < |p| ==> p[k] != sep[0]
    ensures SepFirstAfter(p, sep)
  {
    var t := p + sep;
    assert OccursAt(t, sep, |p|) by { assert t[|p|..|p| + |sep|] == sep; }
    forall k | 0 <= k < |p| ensures !OccursAt(t, sep, k) {
      if k + |sep| <= |t| { assert t[k..k + |sep|][0] == p[k]; }
    }
    FindFromIs(t, sep, 0, |p|);
  }

  lemma {:induction false} SplitJoin(parts: seq<string>, sep: string)
    requires |sep| > 0 && |parts| >= 1
    requires forall i :: 0 <= i < |parts| - 1 ==> SepFirstAfter(parts[i], sep)
    requires !Contains(parts[|parts| - 1], sep)
    ensures Split(Join(parts, sep), sep) == parts
    decreases |parts|
  {
    if |parts| > 1 {
      var p := parts[0];
      var rest := Join(parts[1..], sep);
      var s := p + sep + rest;
      assert Find(s, sep) == Some(|p|) by {
        var t := p + sep;
        assert SepFirstAfter(p, sep);
        FindFromFirst(t, sep, 0);
        assert OccursAt(s, sep, |p|) by { assert s[|p|..|p| + |sep|] == sep; }
        forall k | 0 <= k < |p| ensures !OccursAt(s, sep, k) {
          assert s[k..k + |sep|] == t[k..k + |sep|];
          assert !OccursAt(t, sep, k);
        }
        FindFromIs(s, sep, 0, |p|);
      }
      assert s[..|p|] == p;
      assert s[|p| + |sep|..] == rest;
      SplitJoin(parts[1..], sep);
    }
  }

  /** The decimal digits of a natural number, as `str(n)` and template literals print it. */
  function NatToString(n: nat): (r: string)
    ensures |r| >= 1
    decreases n
  {
    if n < 10 then [DigitChar(n)] else NatToString(n / 10) + [DigitChar(n % 10)]
  }

  function DigitChar(d: nat): (c: char)
    requires d < 10
    ensures '0' <= c <= '9'
  {
    ('0' as int + d) as char
  }

  function IntToString(n: int): string {
    if n < 0 then "-" + NatToString(-n) else NatToString(n)
  }

  predicate IsDigit(c: char) {
    '0' <= c <= '9'
  }

  predicate AllDigits(s: string) {
    forall i :: 0 <= i < |s| ==> IsDigit(s[i])
  }

  /** The value of a string of decimal digits, as `parseInt(s, 10)` reads it. */
  function DigitsValue(s: string): nat
    requires AllDigits(s)
  {
    if s == [] then 0 else 10 * DigitsValue(s[..|s| - 1]) + (s[|s| - 1] as int - '0' as int)
  }

  lemma {:induction false} DigitsValueOfNatToString(n: nat)
    ensures AllDigits(NatToString(n)) && DigitsValue(NatToString(n)) == n
    decreases n
  {
    var r := NatToString(n);
    if n < 10 {
      assert r[..0] == [];
    } else {
      DigitsValueOfNatToString(n / 10);
      assert r[..|r| - 1] == NatToString(n / 10);
      assert forall i :: 0 <= i < |r| - 1 ==> r[i] == NatToString(n / 10)[i];
    }
  }

  /** Text appended after an occurrence does not move the first occurrence. */
  lemma FindExtended(s: string, pat: string, c: string, i: nat)
    requires Find(s, pat) == Some(i)
    ensures Find(s + c, pat) == Some(i)
  {
    FindFromBefore(s, pat, 0, i);
    var t := s + c;
    assert t[i..i + |pat|] == s[i..i + |pat|];
    forall k | 0 <= k < i ensures !OccursAt(t, pat, k) {
      if k + |pat| <= |t| {
        assert k + |pat| <= |s|;
        assert t[k..k + |pat|] == s[k..k + |pat|];
        assert !OccursAt(s, pat, k);
      }
    }
    FindFromIs(t, pat, 0, i);
  }

  /** The split at a found separator. */
  lemma SplitAt(s: string, sep: string, i: nat)
    requires |sep| > 0 && Find(s, sep) == Some(i)
    ensures i + |sep| <= |s| && Split(s, sep) == [s[..i]] + Split(s[i + |sep|..], sep)
  {
  }

  /** Appending text to a string only re-splits its last piece. */
  lemma {:induction false} SplitExtended(s: string, sep: string, c: string, done: seq<string>, b: string)
    requires |sep| > 0 && Split(s, sep) == done + [b]
    ensures Split(s + c, sep) == done + Split(b + c, sep)
    decreases |s|
  {
    var f := Find(s, sep);
    if f.None? {
      SplitNotFound(s, sep, done, b);
      assert done + Split(b + c, sep) == Split(s + c, sep);
    } else {
      var i := f.value;
      var rest := s[i + |sep|..];
      var tail := SplitFound(s, sep, c, done, b, i);
      SplitExtended(rest, sep, c, tail, b);
    }
  }

  lemma SplitNotFound(s: string, sep: string, done: seq<string>, b: string)
    requires |sep| > 0 && Split(s, sep) == done + [b] && Find(s, sep).None?
    ensures done == [] && b == s
  {
    assert Split(s, sep) == [s];
    assert |done| == 0;
    assert b == (done + [b])[0];
  }

  /** The step of SplitExtended at the first separator: the remaining pieces, `tail`,
      are those of the text after it. */
  lemma SplitFound(s: string, sep: string, c: string, done: seq<string>, b: string, i: nat) returns (tail: seq<string>)
    requires |sep| > 0 && Split(s, sep) == done + [b] && Find(s, sep) == Some(i)
    ensures i + |sep| <= |s| && |done| >= 1 && tail == done[1..]
    ensures Split(s[i + |sep|..], sep) == tail + [b]
    ensures Split(s + c, sep) == [done[0]] + Split(s[i + |sep|..] + c, sep)
  {
    SplitAt(s, sep, i);
    FindExtended(s, sep, c, i);
    SplitAt(s + c, sep, i);
    var rest := s[i + |sep|..];
    var sp := Split(rest, sep);
    assert done + [b] == [s[..i]] + sp;
    assert |done| >= 1;
    assert done[0] == (done + [b])[0] == s[..i];
    tail := done[1..];
    assert sp == (done + [b])[1..] == tail + [b];
    assert (s + c)[..i] == s[..i] && (s + c)[i + |sep|..] == rest + c;
  }

  lemma {:induction false} JoinAppend(parts: seq<string>, sep: string, last: string)
    requires parts != []
    ensures Join(parts + [last], sep) == Join(parts, sep) + sep + last
    decreases |parts|
  {
    if |parts| > 1 {
      assert (parts + [last])[1..] == parts[1..] + [last];
      JoinAppend(parts[1..], sep, last);
    }
  }
}
