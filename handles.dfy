/** Native window handles and the get-or-create lookup shared by both wrapper registries. */
module Handles {

  /** Identity of a native window (a `QWindow *` in the dock). */
  type Handle = nat

  /** A width and a height as reported by a geometry event. */
  datatype Size = Size(width: int, height: int)

  /** `Registry::get(handle)`: the wrapper already stored for `h`, or a fresh `blank` one stored now. */
  function GetOrCreate<W>(m: map<Handle, W>, h: Handle, blank: W): (r: map<Handle, W>)
    ensures h in r && r.Keys == m.Keys + {h}
    ensures forall k :: k in m ==> r[k] == m[k]
    ensures h !in m ==> r[h] == blank
  {
    if h in m then m else m[h := blank]
  }

  /** A second lookup of the same handle changes nothing and sees the same wrapper. */
  lemma GetOrCreateIsIdempotent<W>(m: map<Handle, W>, h: Handle, blank: W)
    ensures GetOrCreate(GetOrCreate(m, h, blank), h, blank) == GetOrCreate(m, h, blank)
  {
  }

  /** Number of occurrences of `x` in `s`. */
  function Count<T(==)>(s: seq<T>, x: T): nat
  {
    if s == [] then 0 else (if s[0] == x then 1 else 0) + Count(s[1..], x)
  }

  predicate NoDuplicates<T(==)>(s: seq<T>)
  {
    forall i, j :: 0 <= i < j < |s| ==> s[i] != s[j]
  }

  /** In a sequence without duplicates every element occurs at most once, and exactly once when present. */
  lemma {:induction false} CountInNoDuplicates<T>(s: seq<T>, x: T)
    requires NoDuplicates(s)
    ensures Count(s, x) == if x in s then 1 else 0
  {
    if s != [] {
      assert NoDuplicates(s[1..]) by {
        forall i, j | 0 <= i < j < |s[1..]| ensures s[1..][i] != s[1..][j] {
          assert s[1..][i] == s[i + 1] && s[1..][j] == s[j + 1];
        }
      }
      CountInNoDuplicates(s[1..], x);
      if s[0] == x {
        assert forall k :: 0 <= k < |s[1..]| ==> s[1..][k] == s[k + 1];
        assert x !in s[1..];
      } else {
        assert x in s <==> x in s[1..] by {
          assert s == [s[0]] + s[1..];
        }
      }
    }
  }
}
