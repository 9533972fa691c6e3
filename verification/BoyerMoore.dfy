/**
 The Boyer-Moore search of recovery/recovery_updater.cpp.

 Windows are named by the text position of their first byte; a pattern position is counted from
 the front of the pattern. The two skip tables are stored as the source stores them, as increments
 of the scanning index, and described here by the window shift they stand for.
 */
module BoyerMoore {
  import opened Wrappers

  type Byte = x: int | 0 <= x < 256

  const ALPHABET_LEN := 256
  const NUL: Byte := 0

  // "QC_IMAGE_VERSION_STRING=", the one pattern the updater searches for
  const TZ_VER_STR: seq<Byte> :=
    [81, 67, 95, 73, 77, 65, 71, 69, 95, 86, 69, 82, 83, 73, 79, 78, 95, 83, 84, 82, 73, 78, 71, 61]

  // ---------- What the search is for ----------

  ghost predicate OccursAt(text: seq<Byte>, pat: seq<Byte>, w: int) {
    0 <= w && w + |pat| <= |text| &&
    forall t :: 0 <= t < |pat| ==> text[w + t] == pat[t]
  }

  ghost predicate IsFirstOccurrence(text: seq<Byte>, pat: seq<Byte>, r: Option<nat>) {
    match r
    case Some(w) => OccursAt(text, pat, w) && forall v :: 0 <= v < w ==> !OccursAt(text, pat, v)
    case None => forall v :: !OccursAt(text, pat, v)
  }

  // ---------- Structure of a pattern ----------

  // The suffix from p on is also a prefix.
  ghost predicate IsBorder(pat: seq<Byte>, p: int) {
    0 <= p <= |pat| && forall t :: p <= t < |pat| ==> pat[t] == pat[t - p]
  }

  ghost predicate Unbordered(pat: seq<Byte>) {
    forall p :: 1 <= p < |pat| ==> !IsBorder(pat, p)
  }

  ghost predicate Uniform(pat: seq<Byte>) {
    forall t :: 0 <= t < |pat| ==> pat[t] == pat[0]
  }

  ghost predicate NulFree(pat: seq<Byte>) {
    forall t :: 0 <= t < |pat| ==> pat[t] != NUL
  }

  // The suffix after j occurs again k places to the left, preceded by a byte other than pat[j].
  predicate StrongAt(pat: seq<Byte>, j: int, k: int) {
    1 <= k <= j < |pat| &&
    (forall t :: j < t < |pat| ==> pat[t - k] == pat[t]) &&
    pat[j - k] != pat[j]
  }

  // After a mismatch at j nothing in the pattern itself forbids a match k places further on.
  ghost predicate Possible(pat: seq<Byte>, j: int, k: int) {
    if k <= j then StrongAt(pat, j, k) else 0 <= j < |pat| && (k < |pat| ==> IsBorder(pat, k))
  }

  // ---------- The tables as functions ----------

  // The last position before len holding c, or -1.
  function LastIndex(pat: seq<Byte>, c: Byte, len: nat): (r: int)
    requires len <= |pat|
    ensures -1 <= r < len
    ensures r >= 0 ==> pat[r] == c
  {
    if len == 0 then -1 else if pat[len - 1] == c then len - 1 else LastIndex(pat, c, len - 1)
  }

  lemma {:induction false} LastIndexIsLast(pat: seq<Byte>, c: Byte, len: nat, t: nat)
    requires t < len <= |pat| && pat[t] == c
    ensures t <= LastIndex(pat, c, len)
  {
    if pat[len - 1] != c { LastIndexIsLast(pat, c, len - 1, t); }
  }

  function Delta1(pat: seq<Byte>, c: Byte): nat
    requires |pat| > 0
  {
    |pat| - 1 - LastIndex(pat, c, |pat| - 1)
  }

  // A delta1 entry is the distance from the last byte back to the nearest earlier occurrence of the byte,
  // or the length if there is none.
  lemma Delta1IsDistance(pat: seq<Byte>, c: Byte)
    requires |pat| > 0
    ensures var d := Delta1(pat, c);
            1 <= d <= |pat| && (d < |pat| ==> pat[|pat| - 1 - d] == c) &&
            forall t :: |pat| - 1 - d < t < |pat| - 1 && 0 <= t ==> pat[t] != c
  {
    forall t | LastIndex(pat, c, |pat| - 1) < t < |pat| - 1 && 0 <= t ensures pat[t] != c {
      if pat[t] == c { LastIndexIsLast(pat, c, |pat| - 1, t); }
    }
  }

  // strncmp(pat + p, pat, |pat| - p) == 0, compared from offset t on: equality up to a NUL.
  predicate StrncmpIsZero(pat: seq<Byte>, p: nat, t: nat)
    requires p + t <= |pat|
    decreases |pat| - p - t
  {
    p + t == |pat| ||
    (pat[p + t] == pat[t] && (pat[t] == NUL || StrncmpIsZero(pat, p, t + 1)))
  }

  // The two strings agree up to m, which is the end, or a NUL of both.
  ghost predicate AgreeUpTo(pat: seq<Byte>, p: nat, t: nat, m: int) {
    t <= m && p + m <= |pat| && (forall s :: t <= s < m ==> pat[p + s] == pat[s]) &&
    (p + m == |pat| || (pat[p + m] == NUL && pat[m] == NUL))
  }

  lemma {:induction false} StrncmpIsZeroIff(pat: seq<Byte>, p: nat, t: nat)
    requires p + t <= |pat|
    ensures StrncmpIsZero(pat, p, t) <==> exists m :: AgreeUpTo(pat, p, t, m)
    decreases |pat| - p - t
  {
    if p + t == |pat| || (pat[p + t] == NUL && pat[t] == NUL) {
      assert AgreeUpTo(pat, p, t, t);
    } else {
      StrncmpIsZeroIff(pat, p, t + 1);
      if m :| AgreeUpTo(pat, p, t, m) { assert m > t && AgreeUpTo(pat, p, t + 1, m); }
      if pat[p + t] == pat[t] && StrncmpIsZero(pat, p, t + 1) {
        var m :| AgreeUpTo(pat, p, t + 1, m);
        assert AgreeUpTo(pat, p, t, m);
      }
    }
  }

  // last_prefix after the rounds |pat|-1 .. p of the first loop
  function LastPrefix(pat: seq<Byte>, p: nat): (r: nat)
    requires 0 < |pat| && p <= |pat|
    ensures r <= |pat|
    ensures |pat| > 1 ==> 1 <= r
    decreases |pat| - p
  {
    if p == |pat| then |pat| - 1
    else if StrncmpIsZero(pat, p, 0) then p + 1
    else LastPrefix(pat, p + 1)
  }

  // It is one more than the first p >= j whose suffix passes the test of line 75, and the length less one
  // if none does.
  lemma {:induction false} LastPrefixIsFirst(pat: seq<Byte>, j: nat)
    requires 0 < |pat| && j <= |pat|
    ensures var r := LastPrefix(pat, j);
            FirstPassing(pat, j, r - 1) ||
            (r == |pat| - 1 && forall p :: j <= p < |pat| ==> !StrncmpIsZero(pat, p, 0))
    decreases |pat| - j
  {
    if j < |pat| {
      if StrncmpIsZero(pat, j, 0) {
        assert FirstPassing(pat, j, j);
      } else {
        LastPrefixIsFirst(pat, j + 1);
      }
    }
  }

  predicate FirstPassing(pat: seq<Byte>, j: nat, p: int) {
    j <= p < |pat| && StrncmpIsZero(pat, p, 0) && forall q :: j <= q < p ==> !StrncmpIsZero(pat, q, 0)
  }

  // The least k >= lo with StrongAt(pat, j, k), or 0.
  function LeastStrong(pat: seq<Byte>, j: int, lo: nat): (k: nat)
    requires 1 <= lo
    ensures k != 0 ==> lo <= k && StrongAt(pat, j, k)
    ensures forall m :: lo <= m && StrongAt(pat, j, m) ==> k != 0 && k <= m
    decreases j - lo
  {
    if lo > j then 0 else if StrongAt(pat, j, lo) then lo else LeastStrong(pat, j, lo + 1)
  }

  // The window shift that delta2[j] stands for once the second loop has done its rounds with
  // shifts of at least lo.
  function GoodSuffixShift(pat: seq<Byte>, j: nat, lo: nat): nat
    requires j < |pat| && 1 <= lo
  {
    var k := LeastStrong(pat, j, lo);
    if k != 0 then k else LastPrefix(pat, j)
  }

  function Shifts(pat: seq<Byte>): (s: seq<nat>)
    requires |pat| > 0
    ensures |s| == |pat|
    ensures forall j :: 0 <= j < |pat| ==> 1 <= s[j] <= |pat|
  {
    forall j | 0 <= j < |pat| ensures 1 <= GoodSuffixShift(pat, j, 1) <= |pat| {
      StrncmpSeesBorders(pat, 0, 0);
    }
    seq(|pat|, j requires 0 <= j < |pat| => GoodSuffixShift(pat, j, 1))
  }

  // ---------- The search as a function of any good-suffix table ----------

  function Mismatch(text: seq<Byte>, pat: seq<Byte>, w: nat, j: int): (r: int)
    requires w + |pat| <= |text| && -1 <= j < |pat|
    ensures -1 <= r <= j
    ensures r >= 0 ==> text[w + r] != pat[r]
    decreases j + 1
  {
    if j < 0 || text[w + j] != pat[j] then j else Mismatch(text, pat, w, j - 1)
  }

  lemma {:induction false} MismatchIsLast(text: seq<Byte>, pat: seq<Byte>, w: nat, j: int)
    requires w + |pat| <= |text| && -1 <= j < |pat|
    ensures forall t :: Mismatch(text, pat, w, j) < t <= j ==> text[w + t] == pat[t]
    decreases j + 1
  {
    if j >= 0 && text[w + j] == pat[j] { MismatchIsLast(text, pat, w, j - 1); }
  }

  function Max(a: int, b: int): int { if a > b then a else b }

  lemma MaxIsLargest(a: int, b: int)
    ensures Max(a, b) >= a && Max(a, b) >= b && (Max(a, b) == a || Max(a, b) == b)
  {
  }

  predicate IsTable(pat: seq<Byte>, shifts: seq<nat>) {
    0 < |pat| == |shifts| && forall j :: 0 <= j < |pat| ==> 1 <= shifts[j]
  }

  function SearchFrom(text: seq<Byte>, pat: seq<Byte>, shifts: seq<nat>, w: nat): Option<nat>
    requires IsTable(pat, shifts)
    decreases |text| - w
  {
    if w + |pat| > |text| then None else
    var j := Mismatch(text, pat, w, |pat| - 1);
    if j < 0 then Some(w) else
    var byBadByte := Delta1(pat, text[w + j]) - (|pat| - 1 - j);
    SearchFrom(text, pat, shifts, w + Max(byBadByte, shifts[j]))
  }

  // One window of the search.
  lemma SearchStep(text: seq<Byte>, pat: seq<Byte>, shifts: seq<nat>, w: nat, j: nat) returns (next: nat)
    requires IsTable(pat, shifts) && w + |pat| <= |text| && j == Mismatch(text, pat, w, |pat| - 1)
    ensures next == w + Max(Delta1(pat, text[w + j]) - (|pat| - 1 - j), shifts[j])
    ensures SearchFrom(text, pat, shifts, w) == SearchFrom(text, pat, shifts, next)
  {
    next := w + Max(Delta1(pat, text[w + j]) - (|pat| - 1 - j), shifts[j]);
  }

  // A table is safe when no entry exceeds a shift that might still lead to a match.
  ghost predicate SafeTable(pat: seq<Byte>, shifts: seq<nat>) {
    IsTable(pat, shifts) &&
    forall j, k :: 0 <= j < |pat| && 1 <= k && Possible(pat, j, k) ==> shifts[j] <= k
  }

  lemma NoMatchIsPassed(text: seq<Byte>, pat: seq<Byte>, shifts: seq<nat>, w: nat, j: nat, v: int)
    requires SafeTable(pat, shifts) && w + |pat| <= |text| && j < |pat|
    requires text[w + j] != pat[j] && forall t :: j < t < |pat| ==> text[w + t] == pat[t]
    requires w <= v && OccursAt(text, pat, v)
    ensures w + Max(Delta1(pat, text[w + j]) - (|pat| - 1 - j), shifts[j]) <= v
  {
    var k := v - w;
    assert text[v + j] == pat[j];
    if k <= j {
      assert text[v + (j - k)] == pat[j - k];
      LastIndexIsLast(pat, text[w + j], |pat| - 1, j - k);
      forall t | j < t < |pat| ensures pat[t - k] == pat[t] {
        assert text[v + (t - k)] == pat[t - k];
      }
      assert Possible(pat, j, k);
    } else {
      if k < |pat| {
        forall t | k <= t < |pat| ensures pat[t] == pat[t - k] {
          assert text[v + (t - k)] == pat[t - k];
        }
      }
      assert Possible(pat, j, k);
    }
  }

  // With a safe table no jump passes a match, on any text.
  lemma {:induction false} SafeSearchFindsFirst(text: seq<Byte>, pat: seq<Byte>, shifts: seq<nat>, w: nat)
    requires SafeTable(pat, shifts)
    requires forall v :: 0 <= v < w ==> !OccursAt(text, pat, v)
    ensures IsFirstOccurrence(text, pat, SearchFrom(text, pat, shifts, w))
    decreases |text| - w
  {
    if w + |pat| <= |text| {
      var j := Mismatch(text, pat, w, |pat| - 1);
      MismatchIsLast(text, pat, w, |pat| - 1);
      if j >= 0 {
        var next := w + Max(Delta1(pat, text[w + j]) - (|pat| - 1 - j), shifts[j]);
        forall v | 0 <= v < next ensures !OccursAt(text, pat, v) {
          if w <= v && OccursAt(text, pat, v) {
            NoMatchIsPassed(text, pat, shifts, w, j, v);
          }
        }
        SafeSearchFindsFirst(text, pat, shifts, next);
      }
    }
  }

  // Any hit is a real occurrence, whatever the table.
  lemma {:induction false} HitIsOccurrence(text: seq<Byte>, pat: seq<Byte>, shifts: seq<nat>, w: nat)
    requires IsTable(pat, shifts)
    ensures var r := SearchFrom(text, pat, shifts, w); r.Some? ==> OccursAt(text, pat, r.value)
    decreases |text| - w
  {
    if w + |pat| <= |text| {
      var j := Mismatch(text, pat, w, |pat| - 1);
      MismatchIsLast(text, pat, w, |pat| - 1);
      if j >= 0 {
        HitIsOccurrence(text, pat, shifts,
          w + Max(Delta1(pat, text[w + j]) - (|pat| - 1 - j), shifts[j]));
      }
    }
  }

  // ---------- When the table of the source is safe ----------

  lemma {:induction false} StrncmpSeesBorders(pat: seq<Byte>, p: nat, t: nat)
    requires p + t <= |pat|
    requires forall s :: 0 <= s < t ==> pat[p + s] == pat[s]
    ensures IsBorder(pat, p) ==> StrncmpIsZero(pat, p, t)
    ensures NulFree(pat) && StrncmpIsZero(pat, p, t) ==> IsBorder(pat, p)
    decreases |pat| - p - t
  {
    if p + t < |pat| {
      if pat[p + t] == pat[t] {
        StrncmpSeesBorders(pat, p, t + 1);
      }
      assert IsBorder(pat, p) ==> pat[p + t] == pat[p + t - p];
    } else {
      forall s | p <= s < |pat| ensures pat[s] == pat[s - p] { assert pat[p + (s - p)] == pat[s - p]; }
    }
  }

  lemma UniformShift(pat: seq<Byte>, j: nat)
    requires Uniform(pat) && j < |pat|
    ensures GoodSuffixShift(pat, j, 1) == j + 1
  {
    StrncmpSeesBorders(pat, j, 0);
    forall k ensures !StrongAt(pat, j, k) {
      if 1 <= k <= j { assert pat[j - k] == pat[0]; }
    }
  }

  // Sufficient on every pattern, bytes of value NUL included.
  lemma SourceTableSafe(pat: seq<Byte>)
    requires |pat| > 0 && (Unbordered(pat) || Uniform(pat))
    ensures SafeTable(pat, Shifts(pat))
  {
    forall j, k | 0 <= j < |pat| && 1 <= k && Possible(pat, j, k) ensures Shifts(pat)[j] <= k {
      if k <= j {
      } else if Uniform(pat) {
        UniformShift(pat, j);
      }
    }
  }

  // The text on which a bordered pattern is missed: the pattern's only occurrence starts at the
  // period q, and the first window differs from the pattern at position 1.
  function MissedText(pat: seq<Byte>, q: nat): seq<Byte>
    requires 2 <= q < |pat|
  {
    [pat[0], if pat[1] == NUL then 1 else NUL] + pat[2..q] + pat
  }

  ghost predicate LeastBorder(pat: seq<Byte>, q: nat) {
    1 <= q < |pat| && IsBorder(pat, q) && forall p :: 1 <= p < q ==> !IsBorder(pat, p)
  }

  lemma LeastBorderExists(pat: seq<Byte>) returns (q: nat)
    requires !Unbordered(pat) && !Uniform(pat)
    ensures LeastBorder(pat, q) && 2 <= q
  {
    q := 1;
    while !IsBorder(pat, q)
      invariant 1 <= q < |pat|
      invariant forall p :: 1 <= p < q ==> !IsBorder(pat, p)
      decreases |pat| - q
    {
      q := q + 1;
    }
    if q == 1 {
      AllEqual(pat, |pat| - 1);
    }
  }

  lemma {:induction false} AllEqual(pat: seq<Byte>, t: nat)
    requires IsBorder(pat, 1) && t < |pat|
    ensures forall s :: 0 <= s <= t ==> pat[s] == pat[0]
  {
    if t > 0 {
      AllEqual(pat, t - 1);
      assert pat[t] == pat[t - 1];
    }
  }

  // For a bordered pattern the entry for a mismatch at 1 is one more than the least border.
  lemma ShiftAtOne(pat: seq<Byte>, q: nat)
    requires NulFree(pat) && LeastBorder(pat, q) && 2 <= q
    ensures Shifts(pat)[1] == q + 1
  {
    assert LeastStrong(pat, 1, 1) == 0 by {
      if StrongAt(pat, 1, 1) {
        assert pat[q] == pat[q - q];
        TailEqual(pat, q);
      }
    }
    LastPrefixIs(pat, 1, q);
  }

  lemma {:induction false} TailEqual(pat: seq<Byte>, t: nat)
    requires StrongAt(pat, 1, 1) && 1 <= t < |pat|
    ensures pat[t] == pat[1]
  {
    if t > 1 { TailEqual(pat, t - 1); }
  }

  lemma {:induction false} LastPrefixIs(pat: seq<Byte>, p: nat, q: nat)
    requires NulFree(pat) && LeastBorder(pat, q) && 1 <= p <= q
    ensures LastPrefix(pat, p) == q + 1
    decreases q - p
  {
    StrncmpSeesBorders(pat, p, 0);
    if p < q { LastPrefixIs(pat, p + 1, q); }
  }

  // A bordered pattern that is not a single repeated byte is missed in a text that contains it.
  lemma BorderedPatternMissed(pat: seq<Byte>, q: nat)
    requires NulFree(pat) && LeastBorder(pat, q) && 2 <= q
    ensures OccursAt(MissedText(pat, q), pat, q)
    ensures SearchFrom(MissedText(pat, q), pat, Shifts(pat), 0) == None
  {
    var text := MissedText(pat, q);
    assert |text| == q + |pat|;
    forall t | 2 <= t < |pat| ensures text[0 + t] == pat[t] {
      if t >= q { assert pat[t] == pat[t - q]; }
    }
    ShiftAtOne(pat, q);
    MismatchIs(text, pat, 0, |pat| - 1, 1);
    var next := SearchStep(text, pat, Shifts(pat), 0, 1);
  }

  lemma {:induction false} MismatchIs(text: seq<Byte>, pat: seq<Byte>, w: nat, j: int, m: int)
    requires w + |pat| <= |text| && -1 <= m <= j < |pat|
    requires m >= 0 ==> text[w + m] != pat[m]
    requires forall t :: m < t <= j ==> text[w + t] == pat[t]
    ensures Mismatch(text, pat, w, j) == m
    decreases j + 1
  {
    if m < j { MismatchIs(text, pat, w, j - 1, m); }
  }

  // The exact condition: for patterns without NUL, the search is right on every text exactly when
  // no proper suffix is a prefix, or the pattern repeats one byte.
  lemma SearchCorrectIff(pat: seq<Byte>)
    requires |pat| > 0 && NulFree(pat)
    ensures (forall text: seq<Byte> :: IsFirstOccurrence(text, pat, SearchFrom(text, pat, Shifts(pat), 0)))
            <==> (Unbordered(pat) || Uniform(pat))
  {
    if Unbordered(pat) || Uniform(pat) {
      SourceTableSafe(pat);
      forall text: seq<Byte>
        ensures IsFirstOccurrence(text, pat, SearchFrom(text, pat, Shifts(pat), 0))
      {
        SafeSearchFindsFirst(text, pat, Shifts(pat), 0);
      }
    } else {
      var q := LeastBorderExists(pat);
      BorderedPatternMissed(pat, q);
      var text := MissedText(pat, q);
      assert !IsFirstOccurrence(text, pat, SearchFrom(text, pat, Shifts(pat), 0));
    }
  }

  // "aba" is not found in "xcaba".
  lemma AbaMissedInXcaba()
    ensures OccursAt([120, 99, 97, 98, 97], [97, 98, 97], 2)
    ensures SearchFrom([120, 99, 97, 98, 97], [97, 98, 97], Shifts([97, 98, 97]), 0) == None
  {
    var text: seq<Byte>, pat: seq<Byte> := [120, 99, 97, 98, 97], [97, 98, 97];
    assert !IsBorder(pat, 1) by { assert pat[1] != pat[0]; }
    assert LeastBorder(pat, 2);
    ShiftAtOne(pat, 2);
    MismatchIs(text, pat, 0, |pat| - 1, 1);
    var next := SearchStep(text, pat, Shifts(pat), 0, 1);
  }

  // The updater's own pattern is found wherever it first occurs.
  lemma VersionStringFound(text: seq<Byte>)
    ensures IsFirstOccurrence(text, TZ_VER_STR, SearchFrom(text, TZ_VER_STR, Shifts(TZ_VER_STR), 0))
  {
    var pat := TZ_VER_STR;
    forall p | 1 <= p < |pat| ensures !IsBorder(pat, p) {
      assert pat[p] != pat[p - p];
    }
    SourceTableSafe(pat);
    SafeSearchFindsFirst(text, pat, Shifts(pat), 0);
  }

  // ---------- The repaired prefix test ----------

  // last_prefix when the suffix tested in round p is the one after p, as line 76 records it
  function RepairedPrefix(pat: seq<Byte>, p: nat): (r: nat)
    requires p < |pat|
    ensures p < r <= |pat|
    decreases |pat| - p
  {
    if p + 1 == |pat| || StrncmpIsZero(pat, p + 1, 0) then p + 1 else RepairedPrefix(pat, p + 1)
  }

  function RepairedShifts(pat: seq<Byte>): (s: seq<nat>)
    requires |pat| > 0
    ensures |s| == |pat|
    ensures forall j :: 0 <= j < |pat| ==> 1 <= s[j] <= |pat|
  {
    seq(|pat|, j requires 0 <= j < |pat| =>
      var k := LeastStrong(pat, j, 1); if k != 0 then k else RepairedPrefix(pat, j))
  }

  lemma {:induction false} RepairedPrefixLeast(pat: seq<Byte>, j: nat, k: nat)
    requires j < k < |pat| && IsBorder(pat, k)
    ensures RepairedPrefix(pat, j) <= k
    decreases k - j
  {
    StrncmpSeesBorders(pat, k, 0);
    if j + 1 < k { RepairedPrefixLeast(pat, j + 1, k); }
  }

  // With that one-line repair the search is right for every pattern and every text.
  lemma RepairedSearchFindsFirst(text: seq<Byte>, pat: seq<Byte>)
    requires |pat| > 0
    ensures IsFirstOccurrence(text, pat, SearchFrom(text, pat, RepairedShifts(pat), 0))
  {
    var s := RepairedShifts(pat);
    forall j, k | 0 <= j < |pat| && 1 <= k && Possible(pat, j, k) ensures s[j] <= k {
      if j < k < |pat| { RepairedPrefixLeast(pat, j, k); }
    }
    SafeSearchFindsFirst(text, pat, s, 0);
  }

  // ---------- The program ----------

  method MaxSuffixLen(str: seq<Byte>, p: nat) returns (i: nat)
    requires p < |str|
    ensures i <= p
    ensures forall t :: |str| - 1 - i < t < |str| ==> str[t - (|str| - 1 - p)] == str[t]
    ensures i < p ==> str[p - i] != str[|str| - 1 - i]
  {
    i := 0;
    while str[p - i] == str[|str| - 1 - i] && i < p
      invariant i <= p
      invariant forall t :: |str| - 1 - i < t < |str| ==> str[t - (|str| - 1 - p)] == str[t]
      decreases p - i
    {
      i := i + 1;
    }
  }

  method MakeDelta1(delta1: array<int>, pat: seq<Byte>)
    requires delta1.Length == ALPHABET_LEN && |pat| > 0
    modifies delta1
    ensures forall c: Byte :: delta1[c] == Delta1(pat, c)
  {
    for i := 0 to ALPHABET_LEN
      invariant forall c :: 0 <= c < i ==> delta1[c] == |pat|
    {
      delta1[i] := |pat|;
    }
    for i := 0 to |pat| - 1
      invariant forall c: Byte :: delta1[c] == |pat| - 1 - LastIndex(pat, c, i)
    {
      delta1[pat[i]] := |pat| - 1 - i;
    }
  }

  // A round of the second loop that writes delta2[j] has found exactly a re-occurrence for j.
  lemma SuffixRound(pat: seq<Byte>, p: nat, s: nat, j: nat)
    requires p < |pat| - 1 && s <= p && j < |pat|
    requires forall t :: |pat| - 1 - s < t < |pat| ==> pat[t - (|pat| - 1 - p)] == pat[t]
    requires s < p ==> pat[p - s] != pat[|pat| - 1 - s]
    ensures GoodSuffixShift(pat, j, |pat| - 1 - p)
            == if j == |pat| - 1 - s && pat[p - s] != pat[|pat| - 1 - s] then |pat| - 1 - p
               else GoodSuffixShift(pat, j, |pat| - p)
  {
    var n, k := |pat|, |pat| - 1 - p;
    if j < n - 1 - s && s < p {
      assert pat[(n - 1 - s) - k] != pat[n - 1 - s];
    } else if j > n - 1 - s {
      assert pat[j - k] == pat[j];
    }
    assert StrongAt(pat, j, k) <==> j == n - 1 - s && pat[p - s] != pat[n - 1 - s];
  }

  method FillFromPrefixes(delta2: array<int>, pat: seq<Byte>)
    requires 0 < |pat| == delta2.Length
    modifies delta2
    ensures forall j :: 0 <= j < |pat| ==> delta2[j] == LastPrefix(pat, j) + (|pat| - 1 - j)
  {
    var n := |pat|;
    var lastPrefix := n - 1;
    var p := n - 1;
    while p >= 0
      invariant -1 <= p < n
      invariant lastPrefix == LastPrefix(pat, p + 1)
      invariant forall j :: p < j < n ==> delta2[j] == LastPrefix(pat, j) + (n - 1 - j)
    {
      if StrncmpIsZero(pat, p, 0) {
        lastPrefix := p + 1;
      }
      delta2[p] := lastPrefix + (n - 1 - p);
      p := p - 1;
    }
  }

  method OverwriteFromSuffixes(delta2: array<int>, pat: seq<Byte>)
    requires 0 < |pat| == delta2.Length
    requires forall j :: 0 <= j < |pat| ==> delta2[j] == LastPrefix(pat, j) + (|pat| - 1 - j)
    modifies delta2
    ensures forall j :: 0 <= j < |pat| ==> delta2[j] == |pat| - 1 - j + GoodSuffixShift(pat, j, 1)
  {
    var n := |pat|;
    var p := 0;
    while p < n - 1
      invariant 0 <= p <= n - 1
      invariant forall j :: 0 <= j < n ==> delta2[j] == n - 1 - j + GoodSuffixShift(pat, j, n - p)
    {
      var sufLen := MaxSuffixLen(pat, p);
      ghost var was := delta2[..];
      if pat[p - sufLen] != pat[n - 1 - sufLen] {
        delta2[n - 1 - sufLen] := n - 1 - p + sufLen;
      }
      forall j | 0 <= j < n
        ensures delta2[j] == n - 1 - j + GoodSuffixShift(pat, j, n - 1 - p)
      {
        assert was[j] == n - 1 - j + GoodSuffixShift(pat, j, n - p);
        SuffixRound(pat, p, sufLen, j);
      }
      p := p + 1;
    }
  }

  method MakeDelta2(delta2: array<int>, pat: seq<Byte>)
    requires 0 < |pat| == delta2.Length
    modifies delta2
    ensures forall j :: 0 <= j < |pat| ==> delta2[j] == |pat| - 1 - j + Shifts(pat)[j]
    ensures forall j, k :: StrongAt(pat, j, k) ==>
              var shift := delta2[j] - (|pat| - 1 - j);
              shift <= k && StrongAt(pat, j, shift)
  {
    FillFromPrefixes(delta2, pat);
    OverwriteFromSuffixes(delta2, pat);
    forall j, k | StrongAt(pat, j, k)
      ensures LeastStrong(pat, j, 1) <= k && StrongAt(pat, j, LeastStrong(pat, j, 1))
              && delta2[j] - (|pat| - 1 - j) == LeastStrong(pat, j, 1)
    {
    }
  }

  // The comparing loop: the window that ends at i0, from its last byte backwards.
  method ScanWindow(text: seq<Byte>, pat: seq<Byte>, i0: nat) returns (i: int, j: int)
    requires 0 < |pat| <= i0 + 1 <= |text|
    ensures j == Mismatch(text, pat, i0 - (|pat| - 1), |pat| - 1) && i == i0 - (|pat| - 1) + j
  {
    ghost var w := i0 - (|pat| - 1);
    i, j := i0, |pat| - 1;
    while j >= 0 && text[i] == pat[j]
      invariant -1 <= j < |pat| && i == w + j
      invariant Mismatch(text, pat, w, |pat| - 1) == Mismatch(text, pat, w, j)
      decreases j
    {
      i := i - 1;
      j := j - 1;
    }
  }

  // The main loop of the search, over tables filled beforehand.
  method Scan(text: seq<Byte>, pat: seq<Byte>, delta1: array<int>, delta2: array<int>, ghost shifts: seq<nat>)
    returns (r: Option<nat>)
    requires IsTable(pat, shifts) && delta1.Length == ALPHABET_LEN && delta2.Length == |pat|
    requires forall c: Byte :: delta1[c] == Delta1(pat, c)
    requires forall j :: 0 <= j < |pat| ==> delta2[j] == |pat| - 1 - j + shifts[j] && shifts[j] <= |pat|
    ensures r == SearchFrom(text, pat, shifts, 0)
  {
    ghost var answer, w := SearchFrom(text, pat, shifts, 0), 0;
    var i, j := |pat| - 1, 0;
    while i < |text|
      invariant 0 <= w && i == w + |pat| - 1 < |text| + |pat|
      invariant SearchFrom(text, pat, shifts, w) == answer
      decreases |text| - i
    {
      i, j := ScanWindow(text, pat, i);
      if j < 0 {
        return Some(i + 1);
      }
      ghost var next := SearchStep(text, pat, shifts, w, j);
      i := i + Max(delta1[text[i]], delta2[j]);
      w := next;
    }
    return None;
  }

  method BmSearch(text: seq<Byte>, pat: seq<Byte>) returns (r: Option<nat>)
    requires |pat| > 0
    ensures r == SearchFrom(text, pat, Shifts(pat), 0)
    ensures r.Some? ==> OccursAt(text, pat, r.value)
    ensures Unbordered(pat) || Uniform(pat) ==> IsFirstOccurrence(text, pat, r)
  {
    var delta1, delta2 := new int[ALPHABET_LEN], new int[|pat|];
    MakeDelta1(delta1, pat);
    MakeDelta2(delta2, pat);
    HitIsOccurrence(text, pat, Shifts(pat), 0);
    if Unbordered(pat) || Uniform(pat) {
      SourceTableSafe(pat);
      SafeSearchFindsFirst(text, pat, Shifts(pat), 0);
    }
    r := Scan(text, pat, delta1, delta2, Shifts(pat));
  }
}
