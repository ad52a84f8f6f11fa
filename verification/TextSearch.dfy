/** Searching text for a pattern, and the characters of ASCII identifiers. */
module TextSearch {

  predicate IsWord(c: char) {
    'a' <= c <= 'z' || 'A' <= c <= 'Z' || '0' <= c <= '9' || c == '_' || c == '$'
  }

  predicate OccursAt(text: string, k: nat, pattern: string) {
    k + |pattern| <= |text| && text[k..k + |pattern|] == pattern
  }

  /** Rust's `find` from a position on: the first occurrence, or -1. */
  method Find(text: string, from: nat, pattern: string) returns (pos: int)
    requires from <= |text|
    ensures pos == -1 ==> forall q :: from <= q ==> !OccursAt(text, q, pattern)
    ensures pos != -1 ==> from <= pos && OccursAt(text, pos, pattern) && forall q :: from <= q < pos ==>
      !OccursAt(text, q, pattern)
  {
    for k := from to |text| + 1
      invariant forall q :: from <= q < k ==> !OccursAt(text, q, pattern)
    {
      if k + |pattern| <= |text| && text[k..k + |pattern|] == pattern {
        return k;
      }
    }
    return -1;
  }
}
