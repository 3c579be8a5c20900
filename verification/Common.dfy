/** What several of the models share. */
module Common {

  datatype Option<+T> = None | Some(value: T)

  newtype byte = x: int | 0 <= x < 256

  lemma Assoc<T>(a: seq<T>, b: seq<T>, c: seq<T>)
    ensures (a + b) + c == a + (b + c)
  {
  }

  function Pow256(n: nat): (p: nat)
    ensures p > 0
  {
    if n == 0 then 1 else 256 * Pow256(n - 1)
  }

  /** What a C string keeps of an array: the elements before the first NUL. */
  function CString<T(==)>(s: seq<T>, nul: T): seq<T> {
    if s == [] || s[0] == nul then [] else [s[0]] + CString(s[1..], nul)
  }

  /** Everything is kept exactly when there is no NUL. */
  lemma {:induction false} CStringKeeps<T>(s: seq<T>, nul: T)
    ensures CString(s, nul) == s <==> nul !in s
  {
    if s != [] && s[0] != nul {
      CStringKeeps(s[1..], nul);
      assert s == [s[0]] + s[1..];
      if CString(s, nul) == s {
        assert CString(s[1..], nul) == CString(s, nul)[1..] == s[1..];
      }
    }
  }

  lemma {:induction false} CStringStops<T>(s: seq<T>, nul: T, n: nat)
    requires n < |s| && nul !in s[..n] && s[n] == nul
    ensures CString(s, nul) == s[..n]
  {
    if n > 0 {
      assert s[0] in s[..n];
      assert s[..n][1..] == s[1..][..n - 1];
      CStringStops(s[1..], nul, n - 1);
    }
  }

  lemma {:induction false} CStringLength<T>(s: seq<T>, nul: T)
    ensures |CString(s, nul)| <= |s|
  {
    if s != [] {
      CStringLength(s[1..], nul);
    }
  }
}
