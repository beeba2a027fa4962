/** The JavaScript string and array operations the build script composes:
    `String.prototype.indexOf`, `String.prototype.split` with a non-empty string
    separator, `Array.prototype.join` and `Array.prototype.indexOf`. */
module JsStrings {

  /** `t` occurs in `s` starting at index `i`. */
  predicate OccursAt(s: string, t: string, i: nat)
  {
    i + |t| <= |s| && s[i..i + |t|] == t
  }

  /** `p` is a prefix of `s`. */
  predicate IsPrefix(p: string, s: string)
  {
    |p| <= |s| && s[..|p|] == p
  }

  /** The first occurrence of `t` in `s` at or after `from`, or -1. */
  function IndexOfFrom(s: string, t: string, from: nat): (r: int)
    ensures r == -1 || (from <= r && OccursAt(s, t, r))
    ensures forall j :: from <= j && (r == -1 || j < r) ==> !OccursAt(s, t, j)
    decreases |s| - from
  {
    if from + |t| > |s| then -1
    else if s[from..from + |t|] == t then from
    else IndexOfFrom(s, t, from + 1)
  }

  /** `s.indexOf(t)`: the index of the first occurrence of `t` in `s`, or -1 when
      `t` does not occur. */
  function IndexOf(s: string, t: string): (r: int)
    ensures r == -1 || (r >= 0 && OccursAt(s, t, r))
    ensures forall j: nat :: (r == -1 || j < r) ==> !OccursAt(s, t, j)
  {
    IndexOfFrom(s, t, 0)
  }

  /** An occurrence one position into `s` is an occurrence at the start of `s[1..]`. */
  lemma OccursAtTail(s: string, t: string, j: nat)
    requires s != []
    ensures OccursAt(s, t, j + 1) <==> OccursAt(s[1..], t, j)
  {
    if j + 1 + |t| <= |s| {
      var a, b := s[j + 1..j + 1 + |t|], s[1..][j..j + |t|];
      assert |a| == |b| && forall k :: 0 <= k < |a| ==> a[k] == s[j + 1 + k] == b[k];
    }
  }

  /** Searching `s` is looking at its first position and then searching the rest,
      one position further on. */
  lemma IndexOfStep(s: string, t: string)
    requires |t| > 0 && s != []
    ensures IndexOf(s, t) ==
      if OccursAt(s, t, 0) then 0
      else if IndexOf(s[1..], t) == -1 then -1
      else IndexOf(s[1..], t) + 1
  {
    var r, q := IndexOf(s, t), IndexOf(s[1..], t);
    if r >= 1 {
      OccursAtTail(s, t, r - 1);
    }
    if q >= 0 {
      OccursAtTail(s, t, q);
    }
  }

  /** `s.indexOf(t) === 0` is exactly the prefix test. */
  lemma IndexOfZeroIffPrefix(s: string, t: string)
    ensures IndexOf(s, t) == 0 <==> IsPrefix(t, s)
  {
    if IsPrefix(t, s) {
      assert OccursAt(s, t, 0);
    }
  }

  /** `parts.join(sep)`: the parts with `sep` between neighbours; `[]` joins to "". */
  function Join(parts: seq<string>, sep: string): string
  {
    if |parts| == 0 then ""
    else if |parts| == 1 then parts[0]
    else parts[0] + sep + Join(parts[1..], sep)
  }

  /** `s.split(sep)` for a non-empty separator: the pieces between the occurrences
      of `sep`, found left to right without overlap. There is always at least one
      piece, no piece contains `sep`, the first piece is `s` up to the first
      occurrence, and joining the pieces with `sep` gives back `s`. */
  function Split(s: string, sep: string): (parts: seq<string>)
    requires |sep| > 0
    ensures |parts| >= 1
    ensures parts[0] == if IndexOf(s, sep) == -1 then s else s[..IndexOf(s, sep)]
    ensures forall k :: 0 <= k < |parts| ==> IndexOf(parts[k], sep) == -1
    ensures Join(parts, sep) == s
    decreases |s|
  {
    var i := IndexOf(s, sep);
    if i == -1 then [s]
    else
      var rest := Split(s[i + |sep|..], sep);
      NoEarlierOccurrence(s, sep, i);
      SplitAtOccurrence(s, sep, i);
      [s[..i]] + rest
  }

  /** Cutting `s` around an occurrence of `sep` and gluing it back with `sep`. */
  lemma SplitAtOccurrence(s: string, sep: string, i: nat)
    requires OccursAt(s, sep, i)
    ensures s[..i] + sep + s[i + |sep|..] == s
  {
    assert s == s[..i] + s[i..i + |sep|] + s[i + |sep|..];
  }

  /** A prefix of `s` that ends before the first occurrence of `t` in `s` does not
      contain `t`. */
  lemma NoEarlierOccurrence(s: string, t: string, i: nat)
    requires i <= |s| && |t| > 0
    requires forall j: nat :: j < i ==> !OccursAt(s, t, j)
    ensures IndexOf(s[..i], t) == -1
  {
    var r := IndexOf(s[..i], t);
    if r != -1 {
      assert OccursAt(s[..i], t, r);
      assert s[r..r + |t|] == s[..i][r..r + |t|];
      assert OccursAt(s, t, r);
    }
  }

  /** Dropping the first piece of a split and joining the rest with the same
      separator leaves `s` after its first separator, or "" when `s` has none. */
  lemma {:induction false} JoinTailOfSplit(s: string, sep: string)
    requires |sep| > 0
    ensures Join(Split(s, sep)[1..], sep) ==
      if IndexOf(s, sep) == -1 then "" else s[IndexOf(s, sep) + |sep|..]
  {
    var i := IndexOf(s, sep);
    if i != -1 {
      assert Split(s, sep)[1..] == Split(s[i + |sep|..], sep);
    }
  }

  /** `a.indexOf(x)` on an array, with strict equality: the first index holding
      `x`, or -1 when no element is `x`. */
  function SeqIndexOf<T(==)>(a: seq<T>, x: T): (r: int)
    ensures -1 <= r < |a|
    ensures r == -1 <==> x !in a
    ensures r >= 0 ==> a[r] == x && forall j :: 0 <= j < r ==> a[j] != x
  {
    if a == [] then -1
    else if a[0] == x then 0
    else
      var r := SeqIndexOf(a[1..], x);
      if r == -1 then -1 else r + 1
  }
}
