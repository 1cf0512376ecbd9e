/**
 * `env($key, $default)`: decoding of an environment variable's text. The
 * lookup in `$_ENV` is left to the caller, which passes the value found (or
 * `None`) together with the default.
 */
module Helpers {

  import opened Wrappers
  import opened Strings

  /** The PHP values that reach or leave `env`; a closure is represented by the value it returns. */
  datatype Mixed =
    | Null
    | Bool(b: bool)
    | Str(s: String)
    | Int(i: int)
    | Closure(result: Mixed)
  {
    /** The declared return type `bool|string|null`. */
    predicate IsEnvResult() { Null? || Bool? || Str? }
  }

  /** The type error raised under strict types when the returned value is not `bool|string|null`. */
  datatype TypeError = ReturnTypeError(returned: Mixed)

  /** The value returned for a missing variable before the return type is checked. */
  function MissingValue(default: Mixed): Mixed {
    if default.Closure? then default.result else default
  }

  /** The recognised spellings of the four keywords, compared after lowering. */
  predicate IsTrueWord(l: String) { l == "true" || l == "(true)" }
  predicate IsFalseWord(l: String) { l == "false" || l == "(false)" }
  predicate IsEmptyWord(l: String) { l == "empty" || l == "(empty)" }
  predicate IsNullWord(l: String) { l == "null" || l == "(null)" }

  predicate IsQuoted(v: String) {
    |v| > 1 && v[0] == '"' && v[|v| - 1] == '"'
  }

  function Env(value: Option<String>, default: Mixed): (r: Result<Mixed, TypeError>)
    // a missing value yields the default, or what the default closure returns
    ensures value.None? ==>
      (r.Success? <==> MissingValue(default).IsEnvResult()) &&
      (r.Success? ==> r.value == MissingValue(default))
    // a present value is always decoded, never a type error
    ensures value.Some? ==> r.Success? && r.value.IsEnvResult()
    ensures value.Some? ==>
      var l := Lower(value.value);
      (r.value == Bool(true) <==> IsTrueWord(l)) &&
      (r.value == Bool(false) <==> IsFalseWord(l)) &&
      (r.value == Null <==> IsNullWord(l))
    ensures value.Some? && IsEmptyWord(Lower(value.value)) ==> r.value == Str("")
    ensures value.Some? && !IsKeyword(Lower(value.value)) ==>
      r.value == Str(if IsQuoted(value.value) then value.value[1..|value.value| - 1] else value.value)
  {
    match value
    case None =>
      var d := MissingValue(default);
      if d.IsEnvResult() then Success(d) else Failure(ReturnTypeError(d))
    case Some(v) =>
      var l := Lower(v);
      if IsTrueWord(l) then Success(Bool(true))
      else if IsFalseWord(l) then Success(Bool(false))
      else if IsEmptyWord(l) then Success(Str(""))
      else if IsNullWord(l) then Success(Null)
      else if IsQuoted(v) then Success(Str(v[1..|v| - 1]))
      else Success(Str(v))
  }

  predicate IsKeyword(l: String) {
    IsTrueWord(l) || IsFalseWord(l) || IsEmptyWord(l) || IsNullWord(l)
  }

  /**
   * An integer default is not `bool|string|null`: under strict types a
   * missing variable with `env($key, 120)` raises a return-type error
   * instead of giving the number, directly or through a closure.
   */
  lemma IntDefaultIsTypeError(d: int)
    ensures Env(None, Int(d)) == Failure(ReturnTypeError(Int(d)))
    ensures Env(None, Closure(Int(d))) == Failure(ReturnTypeError(Int(d)))
  {
  }

  /** A quoted value loses exactly its surrounding quotes, so quoting any non-keyword text round-trips. */
  lemma QuotedRoundTrip(s: String)
    requires !IsKeyword(Lower("\"" + s + "\""))
    ensures Env(Some("\"" + s + "\""), Null) == Success(Str(s))
  {
    var v := "\"" + s + "\"";
    assert v[1..|v| - 1] == s;
  }
}
