/** Literal substring containment, the reading given to pandas' `str.contains`. */
module Text {

  /** `needle` occurs in `hay` starting at some position `i`. */
  predicate Contains(hay: string, needle: string) {
    exists i :: 0 <= i <= |hay| && needle <= hay[i..]
  }

  /** The empty string occurs in every string. */
  lemma ContainsEmpty(s: string)
    ensures Contains(s, "")
  {
    assert "" <= s[0..];
  }

  /** An occurrence in `b` is still an occurrence once something is put in front of it. */
  lemma ContainsInSuffix(a: string, b: string, needle: string)
    requires Contains(b, needle)
    ensures Contains(a + b, needle)
  {
    var i :| 0 <= i <= |b| && needle <= b[i..];
    assert (a + b)[|a| + i..] == b[i..];
  }

  /** A prefix of `a` occurs in `a + b`. */
  lemma ContainsPrefix(a: string, b: string)
    ensures Contains(a + b, a)
  {
    assert a <= (a + b)[0..];
  }
}
