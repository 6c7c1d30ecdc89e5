/** The checks the admin API makes before it writes. */
module Validation {
  import opened Wrappers

  datatype Json = Null | Bool(b: bool) | Number(n: int) | Str(s: string) | Array(items: seq<Json>) | Object(keys: seq<string>)

  const MAX_IDENTIFIER: nat := 128
  const MAX_TOKEN_LIMIT: int := 1_000_000
  const MAX_RPM_LIMIT: int := 100_000
  const MAX_CONCURRENCY_LIMIT: int := 10_000

  predicate IdentifierChar(c: char) {
    'a' <= c <= 'z' || 'A' <= c <= 'Z' || '0' <= c <= '9' || c in "-_.:/"
  }

  predicate ValidModelIdentifier(s: string) {
    1 <= |s| <= MAX_IDENTIFIER && forall i :: 0 <= i < |s| ==> IdentifierChar(s[i])
  }

  /** `s` without one trailing '*', when it has one. */
  function StripStar(s: string): string {
    if s != [] && s[|s| - 1] == '*' then s[..|s| - 1] else s
  }

  predicate ValidPattern(s: string) {
    StripStar(s) == [] || ValidModelIdentifier(StripStar(s))
  }

  predicate ValidModelsJson(j: Json) {
    j.Array? && forall i :: 0 <= i < |j.items| ==> j.items[i].Str? && ValidPattern(j.items[i].s)
  }

  predicate ValidTokenLimit(n: int) {
    0 < n <= MAX_TOKEN_LIMIT
  }

  predicate ValidRpmLimit(n: int) {
    0 < n <= MAX_RPM_LIMIT
  }

  predicate ValidConcurrencyLimit(n: int) {
    0 < n <= MAX_CONCURRENCY_LIMIT
  }

  predicate OptionOk<T>(o: Option<T>, p: T -> bool) {
    o.Some? ==> p(o.value)
  }

  // ---------------------------------------------------------------------------
  // What the checks accept
  // ---------------------------------------------------------------------------

  /** By code point: ASCII letters and digits, and - . / : _ */
  predicate Plain(c: char) {
    var n := c as int;
    97 <= n <= 122 || 65 <= n <= 90 || 48 <= n <= 57 || n == 45 || n == 46 || n == 47 || n == 58 || n == 95
  }

  lemma {:induction false} PlainCharacters(c: char)
    ensures IdentifierChar(c) <==> Plain(c)
  {
    assert c in "-_.:/" <==> c == '-' || c == '_' || c == '.' || c == ':' || c == '/';
  }

  /** A plain name of at most 128 characters, possibly empty, by itself or followed by one star. */
  ghost predicate PatternShape(s: string) {
    exists base :: PlainName(base) && (s == base || s == base + "*")
  }

  predicate PlainName(base: string) {
    |base| <= 128 && forall i :: 0 <= i < |base| ==> Plain(base[i])
  }

  lemma {:induction false} PatternsAccepted(s: string)
    ensures ValidPattern(s) <==> PatternShape(s)
    ensures ValidModelIdentifier(s) <==> PlainName(s) && s != ""
  {
    forall i | 0 <= i < |s|
      ensures IdentifierChar(s[i]) <==> Plain(s[i])
    {
      PlainCharacters(s[i]);
    }
    var base := StripStar(s);
    assert s == base || s == base + "*";
    if ValidPattern(s) {
      assert forall i :: 0 <= i < |base| ==> base[i] == s[i];
      assert PlainName(base);
    }
    if b :| PlainName(b) && (s == b || s == b + "*") {
      PlainHasNoStar(b);
      assert base == b;
      assert forall i :: 0 <= i < |b| ==> b[i] == s[i];
    }
  }

  lemma {:induction false} PlainHasNoStar(base: string)
    requires PlainName(base)
    ensures StripStar(base) == base && StripStar(base + "*") == base
  {
    PlainCharacters('*');
    assert base != [] ==> Plain(base[|base| - 1]);
  }

  /** Which lists and limits a write may carry. */
  lemma {:induction false} ValuesAccepted(j: Json, n: int)
    ensures ValidModelsJson(j) <==>
      j.Array? && forall i :: 0 <= i < |j.items| ==> j.items[i].Str? && PatternShape(j.items[i].s)
    ensures ValidTokenLimit(n) <==> 1 <= n <= 1_000_000
    ensures ValidRpmLimit(n) <==> 1 <= n <= 100_000
    ensures ValidConcurrencyLimit(n) <==> 1 <= n <= 10_000
  {
    if j.Array? {
      forall i | 0 <= i < |j.items| && j.items[i].Str?
        ensures ValidPattern(j.items[i].s) <==> PatternShape(j.items[i].s)
      {
        PatternsAccepted(j.items[i].s);
      }
    }
  }
}
