/** Dropping a trailing run of one element. */
module Trim {

  function Strip<T(==)>(s: seq<T>, z: T): (r: seq<T>)
    ensures r <= s
    ensures r != [] ==> r[|r| - 1] != z
  {
    if s == [] || s[|s| - 1] != z then s else Strip(s[..|s| - 1], z)
  }

  function Repeat<T>(n: nat, z: T): (r: seq<T>)
    ensures |r| == n && forall i :: 0 <= i < n ==> r[i] == z
  {
    seq(n, _ => z)
  }

  /** What was dropped is a run of `z`. */
  lemma {:induction false} StripRest<T>(s: seq<T>, z: T)
    ensures s == Strip(s, z) + Repeat(|s| - |Strip(s, z)|, z)
  {
    if s != [] && s[|s| - 1] == z {
      StripRest(s[..|s| - 1], z);
      assert s == s[..|s| - 1] + [z];
    }
  }

  /** A run of `z` behind anything is dropped with the rest of the tail. */
  lemma {:induction false} StripPadded<T>(s: seq<T>, n: nat, z: T)
    ensures Strip(s + Repeat(n, z), z) == Strip(s, z)
    decreases n
  {
    var p := s + Repeat(n, z);
    if n == 0 {
      assert p == s;
    } else {
      assert p[..|p| - 1] == s + Repeat(n - 1, z);
      StripPadded(s, n - 1, z);
    }
  }

  lemma StripFixed<T>(s: seq<T>, z: T)
    ensures Strip(s, z) == s <==> s == [] || s[|s| - 1] != z
  {
  }

  /** Equal length and equal remains mean equal. */
  lemma StripDetermines<T>(p: seq<T>, q: seq<T>, z: T)
    requires |p| == |q| && Strip(p, z) == Strip(q, z)
    ensures p == q
  {
    StripRest(p, z);
    StripRest(q, z);
  }
}
