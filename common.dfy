/** Values shared by the backend and the frontend model. */
module Common {

  /** One byte of file content. */
  newtype byte = x: int | 0 <= x < 256

  /** The content of a file, a chunk or a blob. */
  type Bytes = seq<byte>

  datatype Option<T> = None | Some(value: T)

  /** The outcome of a backend operation: a value, or the exception it throws. */
  datatype Result<T, E> = Ok(value: T) | Err(error: E)

  /** Adding a key that was absent and removing it again gives the map back. */
  lemma UpdateThenRemove<K, V>(m: map<K, V>, k: K, v: V)
    requires k !in m
    ensures m[k := v] - {k} == m
  {
  }

  /** A prefix of a suffix is a slice, and the suffix's elements sit `a` places further on. */
  lemma PrefixOfSuffix<T>(s: seq<T>, a: nat, r: seq<T>)
    requires a <= |s| && |r| <= |s| - a && r == s[a..][..|r|]
    ensures r == s[a..a + |r|]
    ensures forall k :: a <= k < |s| ==> s[k] == s[a..][k - a]
  {
  }

  /** Taking every element of a sequence gives the sequence. */
  lemma TakeAll<T>(s: seq<T>)
    ensures s[..|s|] == s
  {
  }
}
