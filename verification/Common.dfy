/** Small shared vocabulary: optional values, finite sets, and searching and trimming byte strings. */
module Common {

  datatype Option<+T> = None | Some(value: T)

  /** A byte string: one character per byte, as QByteArray holds it. */
  type Bytes = string

  function Min(a: int, b: int): int {
    if a <= b then a else b
  }

  function Max(a: int, b: int): int {
    if a >= b then a else b
  }

  /** A finite set that lies inside another is no larger. */
  lemma {:induction false} SubsetSize<T>(a: set<T>, b: set<T>)
    requires a <= b
    ensures |a| <= |b|
    decreases a
  {
    if a != {} {
      var x :| x in a;
      SubsetSize(a - {x}, b - {x});
    }
  }

  /** A subset of the same size is the whole set. */
  lemma SubsetSameSize<T>(a: set<T>, b: set<T>)
    requires a <= b && |a| == |b|
    ensures a == b
  {
    if a != b {
      var x :| x in b && x !in a;
      SubsetSize(a, b - {x});
    }
  }

  /** The integers below n. */
  function Below(n: nat): (r: set<nat>)
    ensures |r| == n
    ensures forall i: nat :: i in r <==> i < n
  {
    if n == 0 then {} else Below(n - 1) + {n - 1}
  }

  // ---------------------------------------------------------------------------------------------
  // Searching and trimming

  predicate MatchesAt(s: Bytes, needle: Bytes, i: nat) {
    i + |needle| <= |s| && s[i..i + |needle|] == needle
  }

  /** indexOf: the first match from a place on. */
  function IndexOf(s: Bytes, needle: Bytes, from: nat): (r: Option<nat>)
    ensures r.Some? ==> from <= r.value && MatchesAt(s, needle, r.value)
                        && forall k :: from <= k < r.value ==> !MatchesAt(s, needle, k)
    ensures r.None? ==> forall k :: from <= k ==> !MatchesAt(s, needle, k)
    decreases |s| - from
  {
    if from + |needle| > |s| then None
    else if MatchesAt(s, needle, from) then Some(from)
    else if from == |s| then None
    else IndexOf(s, needle, from + 1)
  }

  /** What QByteArray::trimmed drops. */
  predicate IsSpace(c: char) {
    c == ' ' || '\t' <= c <= '\r'
  }

  /** The first place from i on that is not white space, before `end`. */
  function SkipSpace(s: Bytes, i: nat, end: nat): (r: nat)
    requires i <= end <= |s|
    ensures i <= r <= end && (r < end ==> !IsSpace(s[r])) && forall k :: i <= k < r ==> IsSpace(s[k])
    decreases end - i
  {
    if i < end && IsSpace(s[i]) then SkipSpace(s, i + 1, end) else i
  }

  /** The place after the last one from `start` on that is not white space. */
  function DropSpace(s: Bytes, start: nat, end: nat): (r: nat)
    requires start <= end <= |s|
    ensures start <= r <= end && (r > start ==> !IsSpace(s[r - 1])) && forall k :: r <= k < end ==> IsSpace(s[k])
    decreases end
  {
    if start < end && IsSpace(s[end - 1]) then DropSpace(s, start, end - 1) else end
  }

  function Trimmed(s: Bytes): Bytes {
    var start := SkipSpace(s, 0, |s|);
    s[start..DropSpace(s, start, |s|)]
  }

  /** No white space at either end. */
  predicate IsTrim(s: Bytes) {
    s == "" || (!IsSpace(s[0]) && !IsSpace(s[|s| - 1]))
  }

  predicate AllSpace(s: Bytes) {
    forall i :: 0 <= i < |s| ==> IsSpace(s[i])
  }

  /** Trimming strips exactly the white space around a trim middle. */
  lemma TrimmedMiddle(a: Bytes, s: Bytes, b: Bytes)
    requires AllSpace(a) && AllSpace(b) && IsTrim(s)
    ensures Trimmed(a + s + b) == s
  {
    var whole := a + s + b;
    var start := SkipSpace(whole, 0, |whole|);
    var end := DropSpace(whole, start, |whole|);
    if s == "" {
      assert forall k :: 0 <= k < |whole| ==> IsSpace(whole[k]);
    } else {
      assert whole[|a|] == s[0] && whole[|a| + |s| - 1] == s[|s| - 1];
      assert forall k :: 0 <= k < |a| ==> whole[k] == a[k];
      assert start == |a|;
      assert forall k :: |a| + |s| <= k < |whole| ==> whole[k] == b[k - |a| - |s|];
      assert end == |a| + |s|;
    }
  }

  lemma ThreeParts<T>(s: seq<T>, i: nat, j: nat)
    requires i <= j <= |s|
    ensures s == s[0..i] + s[i..j] + s[j..|s|]
  {
  }

  lemma SpacePart(s: Bytes, i: nat, j: nat)
    requires i <= j <= |s| && forall k :: i <= k < j ==> IsSpace(s[k])
    ensures AllSpace(s[i..j])
  {
    hide IsSpace;
  }

  lemma TrimPart(s: Bytes, i: nat, j: nat)
    requires i <= j <= |s| && (i < j ==> !IsSpace(s[i]) && !IsSpace(s[j - 1]))
    ensures IsTrim(s[i..j])
  {
    hide IsSpace;
  }

  /** White space, a trim middle, white space. */
  lemma TrimSplits(s: Bytes) returns (a: Bytes, b: Bytes)
    ensures s == a + Trimmed(s) + b && AllSpace(a) && AllSpace(b) && IsTrim(Trimmed(s))
  {
    hide SkipSpace, DropSpace, AllSpace, IsTrim, IsSpace;
    var start := SkipSpace(s, 0, |s|);
    var end := DropSpace(s, start, |s|);
    a, b := s[0..start], s[end..|s|];
    ThreeParts(s, start, end);
    SpacePart(s, 0, start);
    SpacePart(s, end, |s|);
    TrimPart(s, start, end);
  }

  /** Trimming leaves alone exactly what has no white space at either end. */
  lemma TrimmedIsSelf(s: Bytes)
    ensures Trimmed(s) == s <==> IsTrim(s)
  {
    hide Trimmed, IsTrim;
    var a, b := TrimSplits(s);
    if IsTrim(s) {
      TrimmedMiddle("", s, "");
      assert "" + s + "" == s;
    }
  }
}
