/** The threshold update rule shared by the acceptance criteria
    (alns/accept/update.py): `linear` subtracts the step, `exponential`
    multiplies by it, and the method name is matched after lower-casing. */
module UpdateRule {
  import opened Wrappers

  datatype UpdateError = MethodNotUnderstood(name: string)

  /** Lower-casing of one character, for the ASCII letters. */
  function LowerChar(c: char): char
  {
    if 'A' <= c <= 'Z' then (c as int + 32) as char else c
  }

  /** `str.lower()` restricted to ASCII letters; every other character is kept. */
  function Lower(s: string): (r: string)
    ensures |r| == |s|
    ensures forall i :: 0 <= i < |s| ==> r[i] == LowerChar(s[i])
  {
    seq(|s|, i requires 0 <= i < |s| => LowerChar(s[i]))
  }

  /** The method names `update` understands, in any letter case. */
  predicate KnownMethod(name: string)
  {
    Lower(name) == "linear" || Lower(name) == "exponential"
  }

  /** `update(current, step, method)`. */
  function Update(current: real, step: real, name: string): (r: Result<real, UpdateError>)
    ensures r.Err? <==> !KnownMethod(name)
    ensures r.Err? ==> r.error == MethodNotUnderstood(Lower(name))
    ensures Lower(name) == "linear" ==> r == Ok(current - step)
    ensures Lower(name) == "exponential" ==> r == Ok(current * step)
  {
    var m := Lower(name);
    if m == "linear" then Ok(current - step)
    else if m == "exponential" then Ok(current * step)
    else Err(MethodNotUnderstood(m))
  }

  lemma LowerIdempotent(s: string)
    ensures Lower(Lower(s)) == Lower(s)
  {
  }

  /** Any spelling of a method name behaves exactly as its lower-case form. */
  lemma CaseInsensitive(current: real, step: real, name: string)
    ensures Update(current, step, name) == Update(current, step, Lower(name))
  {
    LowerIdempotent(name);
  }

  /** A linear step of zero and an exponential step of one change nothing. */
  lemma NeutralSteps(current: real)
    ensures Update(current, 0.0, "linear") == Ok(current)
    ensures Update(current, 1.0, "exponential") == Ok(current)
    ensures Update(current, 0.0, "LINEAR") == Ok(current)
    ensures Update(current, 1.0, "EXPONENTIAL") == Ok(current)
  {
    assert Lower("linear") == "linear";
    assert Lower("exponential") == "exponential";
    assert Lower("LINEAR") == "linear";
    assert Lower("EXPONENTIAL") == "exponential";
  }

  /** The worked values of the bundled tests, and a rejected method name. */
  lemma Examples()
    ensures Update(1.0, 0.5, "linear") == Ok(0.5)
    ensures Update(2.0, 1.0, "linear") == Ok(1.0)
    ensures Update(1.0, 0.5, "exponential") == Ok(0.5)
    ensures Update(2.0, 0.0, "exponential") == Ok(0.0)
    ensures Update(1.0, 0.5, "unknown_method").Err?
  {
    assert Lower("linear") == "linear";
    assert Lower("exponential") == "exponential";
    assert Lower("unknown_method") == "unknown_method";
  }
}
