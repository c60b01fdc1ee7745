/** The pieces of JavaScript value semantics the extraction rules depend on. */
module JsValues {
  import opened Wrappers

  /** JavaScript `a < b` on two strings: lexicographic comparison of the
      characters, where a proper prefix is smaller than the longer string. */
  function StringLess(a: string, b: string): bool
  {
    if |a| == 0 then |b| > 0
    else if |b| == 0 then false
    else if a[0] != b[0] then a[0] < b[0]
    else StringLess(a[1..], b[1..])
  }

  /** On one-character strings the comparison is the order of the characters. */
  lemma SingleCharLess(a: char, b: char)
    ensures StringLess([a], [b]) <==> a < b
  {
  }

  /** JavaScript `a >= b` on two strings. */
  predicate StringAtLeast(a: string, b: string)
  {
    !StringLess(a, b)
  }

  /** JavaScript `a <= b` on two strings. */
  predicate StringAtMost(a: string, b: string)
  {
    !StringLess(b, a)
  }

  /** `!!m[k]` on a record of strings: a missing key reads `undefined`, and `""` is falsy. */
  predicate StringEntryTruthy(m: map<string, string>, k: string)
  {
    k in m && m[k] != ""
  }

  /** `!!m[k]` on a record of booleans. */
  predicate BoolEntryTruthy(m: map<string, bool>, k: string)
  {
    k in m && m[k]
  }

  /** Truthiness of an optional string such as `statement.name?.text`. */
  predicate NameTruthy(name: Option<string>)
  {
    name.Some? && name.value != ""
  }
}
