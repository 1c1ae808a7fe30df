/**
 * The two defined members of lib/utils.h: the `max` template and the
 * message-carrying `Exception`.
 */
module Utils {

  /**
   * `max(a, b)`: the first argument when it is at least the second, otherwise
   * the second. The template compares with T's `operator>=`, passed here as geq.
   */
  function Max<T(==)>(geq: (T, T) -> bool, a: T, b: T): (r: T)
    ensures r == a || r == b
    ensures geq(a, b) ==> r == a
    ensures !geq(a, b) ==> r == b
  {
    if geq(a, b) then a else b
  }

  /** `>=` of a type whose values are all comparable: reflexive and total. */
  ghost predicate TotalPreorder<T(!new)>(geq: (T, T) -> bool) {
    && (forall x :: geq(x, x))
    && (forall x, y :: geq(x, y) || geq(y, x))
  }

  /** Over a total preorder the result is an upper bound of both arguments. */
  lemma MaxIsUpperBound<T(!new)>(geq: (T, T) -> bool, a: T, b: T)
    requires TotalPreorder(geq)
    ensures geq(Max(geq, a, b), a) && geq(Max(geq, a, b), b)
  {
  }

  /** On a tie (each at least the other) the first argument wins, even when the two differ. */
  lemma MaxTieIsFirst<T(!new)>(geq: (T, T) -> bool, a: T, b: T)
    requires geq(a, b) && geq(b, a)
    ensures Max(geq, a, b) == a
  {
  }

  lemma MaxIdempotent<T(!new)>(geq: (T, T) -> bool, a: T)
    ensures Max(geq, a, a) == a
  {
  }

  /**
   * The text a C caller sees through a `const char*`: everything before the
   * first NUL character.
   */
  function CString(s: string): (r: string)
    ensures r <= s && '\0' !in r
    ensures |r| < |s| ==> s[|r|] == '\0'
    decreases |s|
  {
    if s == [] || s[0] == '\0' then [] else [s[0]] + CString(s[1..])
  }

  /** An exception that carries a message; `what()` hands the message back as a C string. */
  class Exception {
    const message: string

    constructor (what: string)
      ensures message == what
      ensures '\0' !in what ==> What() == what
      ensures What() <= what
    {
      message := what;
      new;
      CStringOfPlainText(what);
    }

    function What(): string {
      CString(message)
    }
  }

  lemma {:induction false} CStringOfPlainText(s: string)
    ensures '\0' !in s ==> CString(s) == s
    decreases |s|
  {
    if s != [] && '\0' !in s {
      CStringOfPlainText(s[1..]);
      assert s == [s[0]] + s[1..];
    }
  }
}
