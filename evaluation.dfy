/**
 * The evaluation path of one REPL line: the error classifier
 * `isRecoverableError` (index.js:11-16), the default `localEval`
 * (index.js:158-170) and the asynchronous `eval` hook handed to the REPL
 * (index.js:97-120).
 *
 * JavaScript values are modelled only as far as these functions look at
 * them: whether they are `null`/`undefined`, whether they are truthy, the
 * `name` and `message` an error object carries, and whether a value is a
 * promise and how it settles. The two `await`s of the hook become the
 * explicit result datatype `Awaited`; nothing here runs asynchronously.
 */
module Evaluation {
  import opened Wrappers

  /** How a promise has settled (or not) by the time it is awaited. */
  datatype Settlement = Pending | Fulfilled(result: Value) | Rejected(reason: Value)

  /**
   * A JavaScript value: `null` or `undefined`; some other falsy value
   * (`false`, `0`, `""`, `NaN`); an object or other truthy value with the
   * strings its `name` and `message` properties convert to; or a promise.
   */
  datatype Value =
    | Undefined
    | OtherFalsy
    | Thing(name: string, message: string)
    | Promise(state: Settlement)

  /** JavaScript truthiness, as `if (err)` see it. */
  predicate Truthy(v: Value)
  {
    v.Thing? || v.Promise?
  }

  // ---------------------------------------------------------------------
  // isRecoverableError (index.js:11-16)
  // ---------------------------------------------------------------------

  /** The anchored alternatives of the regular expression at index.js:13. */
  const EndOfInput: string := "Unexpected end of input"
  const UnexpectedToken: string := "Unexpected token"

  /** `s` starts with `p` (the `^` anchor of a regular expression). */
  predicate HasPrefix(s: string, p: string)
  {
    |p| <= |s| && s[..|p|] == p
  }

  /** Character-by-character prefix test, the way a regex engine matches `^p`. */
  function StartsWith(s: string, p: string): (r: bool)
    ensures r <==> HasPrefix(s, p)
  {
    if p == [] then true
    else if s == [] then false
    else
      var r := s[0] == p[0] && StartsWith(s[1..], p[1..]);
      assert r ==> s[..|p|] == [s[0]] + s[1..][..|p| - 1];
      assert s[0] == p[0] && HasPrefix(s[1..], p[1..]) ==> p == [p[0]] + p[1..];
      assert HasPrefix(s, p) ==> s[1..][..|p| - 1] == s[..|p|][1..];
      r
  }

  /**
   * `isRecoverableError(error)`: `None` when reading `error.name` throws,
   * which happens exactly for `null` and `undefined`; otherwise whether the
   * error is a `SyntaxError` whose message starts with either alternative.
   */
  function IsRecoverableError(e: Value): (r: Option<bool>)
    ensures r == None <==> e.Undefined?
    ensures r == Some(true) <==>
      e.Thing? && e.name == "SyntaxError" &&
      (HasPrefix(e.message, EndOfInput) || HasPrefix(e.message, UnexpectedToken))
  {
    match e
    case Undefined => None
    case Thing(name, message) =>
      if name == "SyntaxError" then
        Some(StartsWith(message, EndOfInput) || StartsWith(message, UnexpectedToken))
      else Some(false)
    case _ => Some(false)
  }

  /** Truncated input, the case the classifier exists for, is recoverable. */
  lemma TruncationIsRecoverable()
    ensures IsRecoverableError(Thing("SyntaxError", "Unexpected end of input")) == Some(true)
  {
    var m: string := "Unexpected end of input";
    assert m[..|EndOfInput|] == EndOfInput;
  }

  /**
   * The class is wider than truncated input: a stray `)` raises an
   * "Unexpected token" syntax error, and that too counts as recoverable.
   */
  lemma StrayParenIsRecoverable()
    ensures IsRecoverableError(Thing("SyntaxError", "Unexpected token ')'")) == Some(true)
  {
    var m: string := "Unexpected token ')'";
    assert m[..|UnexpectedToken|] == UnexpectedToken;
  }

  /**
   * The match is case-sensitive and anchored, and only a `SyntaxError`
   * qualifies; values without such an error are never recoverable, and
   * `null`/`undefined` make the classifier throw.
   */
  lemma NotRecoverableExamples()
    ensures IsRecoverableError(Thing("SyntaxError", "Invalid or unexpected token")) == Some(false)
    ensures IsRecoverableError(Thing("SyntaxError", "unexpected token")) == Some(false)
    ensures IsRecoverableError(Thing("TypeError", "Unexpected token ')'")) == Some(false)
    ensures IsRecoverableError(OtherFalsy) == Some(false)
    ensures IsRecoverableError(Undefined) == None
  {
    var m1: string := "Invalid or unexpected token";
    assert m1[0] != EndOfInput[0] && m1[0] != UnexpectedToken[0];
    var m2: string := "unexpected token";
    assert m2[0] != EndOfInput[0] && m2[0] != UnexpectedToken[0];
  }

  // ---------------------------------------------------------------------
  // localEval (index.js:158-170)
  // ---------------------------------------------------------------------

  /** What a call of `evalFn(s)` does: returns a value or throws one. */
  datatype EvalFnResult = Returned(value: Value) | Threw(thrown: Value)

  /**
   * What an evaluator installed as `localEval` does with the callback the
   * hook passes it: calls it with `(err, value)`, throws (which rejects the
   * surrounding `new Promise`), or never calls it.
   */
  datatype Completion = Called(err: Value, value: Value) | Raised(thrown: Value) | NeverCalled

  /**
   * The evaluator in force: the default `localEval` around the configured
   * `evalFn`, or a function installed with `setEval`.
   */
  datatype Evaluator =
    | Default(evalFn: string -> EvalFnResult)
    | Custom(run: string -> Completion)

  /**
   * The default `localEval`: `cb(null, result)` when no truthy error was
   * caught, else `cb(err)`. A falsy thrown value therefore reports success
   * with `result` still `undefined`.
   */
  function LocalEval(evalFn: string -> EvalFnResult, s: string): (r: Completion)
    ensures r.Called?
    ensures Truthy(r.err) <==> evalFn(s).Threw? && Truthy(evalFn(s).thrown)
    ensures Truthy(r.err) ==> r.err == evalFn(s).thrown && r.value == Undefined
    ensures !Truthy(r.err) ==> r.err == Undefined
    ensures !Truthy(r.err) && evalFn(s).Returned? ==> r.value == evalFn(s).value
    ensures evalFn(s).Threw? ==> r.value == Undefined
  {
    var (err, result) :=
      match evalFn(s)
      case Returned(v) => (Undefined, v)
      case Threw(e) => (e, Undefined);
    if !Truthy(err) then Called(Undefined, result) else Called(err, Undefined)
  }

  /**
   * What the evaluator in force does with the source text `s`: the default
   * `localEval` always calls back once, reporting an error exactly when a
   * truthy value was thrown; a function installed with `setEval` is trusted
   * as is.
   */
  function Complete(ev: Evaluator, s: string): (r: Completion)
    ensures ev.Default? ==> r.Called?
    ensures ev.Default? ==> (Truthy(r.err) <==> ev.evalFn(s).Threw? && Truthy(ev.evalFn(s).thrown))
    ensures ev.Custom? ==> r == ev.run(s)
  {
    match ev
    case Default(evalFn) => LocalEval(evalFn, s)
    case Custom(run) => run(s)
  }

  // ---------------------------------------------------------------------
  // The eval hook (index.js:97-120)
  // ---------------------------------------------------------------------

  /** `processTopLevelAwait(s) || s`: the rewrite when it is truthy, else `s`. */
  function RewrittenSource(s: string, rewritten: Option<string>): (t: string)
    ensures t == s || (rewritten.Some? && t == rewritten.value && t != "")
    ensures rewritten.Some? && rewritten.value != "" ==> t == rewritten.value
  {
    if rewritten.Some? && rewritten.value != "" then rewritten.value else s
  }

  /**
   * `isAsync`: whether the rewrite changed the text, which is exactly when
   * the rewrite returned a non-empty text other than `s`.
   */
  predicate IsAsync(s: string, rewritten: Option<string>)
    ensures IsAsync(s, rewritten) <==>
      rewritten.Some? && rewritten.value != "" && rewritten.value != s
  {
    RewrittenSource(s, rewritten) != s
  }

  /** The outcome of `await v`: its value, the reason it throws, or no outcome at all. */
  datatype Awaited = Settled(value: Value) | Thrown(reason: Value) | NeverSettles

  /**
   * `await v`: a non-promise is its own value; a promise yields what it
   * settles with, following promises it was resolved with.
   */
  function Await(v: Value): (r: Awaited)
    ensures r.Settled? ==> !r.value.Promise?
    ensures !v.Promise? ==> r == Settled(v)
  {
    match v
    case Promise(Fulfilled(x)) => Await(x)
    case Promise(Rejected(e)) => Thrown(e)
    case Promise(Pending) => NeverSettles
    case _ => Settled(v)
  }

  /** Awaiting an awaited value again changes nothing. */
  lemma AwaitIdempotent(v: Value)
    requires Await(v).Settled?
    ensures Await(Await(v).value) == Await(v)
  {
  }

  /**
   * What the hook passes to the REPL's callback: `cb(null, value)`,
   * `cb(new repl.Recoverable(e))` or `cb(e)`; or no call at all, when an
   * awaited promise never settles or the `catch` block itself throws.
   */
  datatype Outcome = Ok(value: Value) | Recoverable(error: Value) | Fatal(error: Value) | NoReply

  /** The `catch` block (index.js:112-118). */
  function Classify(e: Value): (r: Outcome)
    ensures r.Recoverable? <==> IsRecoverableError(e) == Some(true)
    ensures r.Fatal? <==> IsRecoverableError(e) == Some(false)
    ensures r == NoReply <==> e.Undefined?
    ensures r.Recoverable? || r.Fatal? ==> r.error == e
  {
    match IsRecoverableError(e)
    case None => NoReply
    case Some(true) => Recoverable(e)
    case Some(false) => Fatal(e)
  }

  /**
   * The value the `try` block (index.js:103-111) throws into the `catch`
   * block, if any: the evaluator's throw, its truthy `err`, or the reason
   * the second `await` throws.
   */
  function Failure(c: Completion, isAsync: bool): (r: Option<Value>)
    ensures r.Some? ==> c.Raised? || (c.Called? && (Truthy(c.err) || (isAsync && Await(c.value).Thrown?)))
    ensures c.NeverCalled? ==> r.None?
    ensures c.Raised? ==> r == Some(c.thrown)
    ensures c.Called? && Truthy(c.err) ==> r == Some(c.err)
    ensures c.Called? && !Truthy(c.err) && isAsync && Await(c.value).Thrown? ==> r == Some(Await(c.value).reason)
    ensures !isAsync ==> (r.Some? <==> c.Raised? || (c.Called? && Truthy(c.err)))
    ensures r.Some? && c.Called? && !Truthy(c.err) ==> isAsync && c.value.Promise?
  {
    match c
    case NeverCalled => None
    case Raised(e) => Some(e)
    case Called(err, v) =>
      if Truthy(err) then Some(err)
      else if isAsync && Await(v).Thrown? then Some(Await(v).reason)
      else None
  }

  /** Whether the `try` block waits forever: no callback, or a never-settling `await`. */
  predicate Stalls(c: Completion, isAsync: bool)
    ensures !isAsync ==> (Stalls(c, isAsync) <==> c.NeverCalled?)
    ensures Stalls(c, isAsync) && c.Called? ==> isAsync && c.value.Promise?
    ensures c.NeverCalled? ==> Stalls(c, isAsync)
    ensures isAsync && c.Called? && !Truthy(c.err) && Await(c.value).NeverSettles? ==> Stalls(c, isAsync)
    ensures Stalls(c, isAsync) ==> Failure(c, isAsync).None?
  {
    c.NeverCalled? || (c.Called? && !Truthy(c.err) && isAsync && Await(c.value).NeverSettles?)
  }

  /**
   * The hook for the line `s`, with `rewritten` the value of
   * `processTopLevelAwait(s)` and `ev` the evaluator in force.
   */
  function Hook(s: string, rewritten: Option<string>, ev: Evaluator): (r: Outcome)
    ensures var c := Complete(ev, RewrittenSource(s, rewritten));
            var isAsync := IsAsync(s, rewritten);
            (r.Ok? <==> !Stalls(c, isAsync) && Failure(c, isAsync).None?) &&
            (r.Ok? ==> c.Called? && !Truthy(c.err) &&
                       (if isAsync then Await(c.value) == Settled(r.value) else r.value == c.value)) &&
            (Failure(c, isAsync).Some? ==> r == Classify(Failure(c, isAsync).value)) &&
            (Stalls(c, isAsync) ==> r == NoReply)
  {
    var t := RewrittenSource(s, rewritten);
    var isAsync := t != s;
    match Complete(ev, t)
    case NeverCalled => NoReply
    case Raised(e) => Classify(e)
    case Called(err, value) =>
      if Truthy(err) then Classify(err)
      else if !isAsync then Ok(value)
      else
        match Await(value)
        case Settled(x) => Ok(x)
        case Thrown(e) => Classify(e)
        case NeverSettles => NoReply
  }

  /**
   * On failure the reply is a `repl.Recoverable` exactly when
   * `isRecoverableError` holds of the thrown value, and the thrown value
   * itself otherwise.
   */
  lemma HookFailureIsClassified(s: string, rewritten: Option<string>, ev: Evaluator, e: Value)
    requires Failure(Complete(ev, RewrittenSource(s, rewritten)), IsAsync(s, rewritten)) == Some(e)
    ensures Hook(s, rewritten, ev).Recoverable? <==> IsRecoverableError(e) == Some(true)
    ensures Hook(s, rewritten, ev).Fatal? <==> IsRecoverableError(e) == Some(false)
    ensures !Hook(s, rewritten, ev).Ok?
  {
  }

  /** Without a rewrite, the hook reports the evaluator's value as is, a promise included. */
  lemma SyncValueIsNotAwaited(s: string, ev: Evaluator, v: Value)
    requires Complete(ev, s) == Called(Undefined, v)
    ensures Hook(s, None, ev) == Ok(v)
  {
  }

  /**
   * With the default evaluator, a falsy thrown value is reported as success
   * with the value `undefined` (the `if (!err)` test at index.js:165).
   */
  lemma FalsyThrowIsSuccess(s: string, evalFn: string -> EvalFnResult)
    requires (evalFn(s) == Threw(Undefined) || evalFn(s) == Threw(OtherFalsy))
    ensures Hook(s, None, Default(evalFn)) == Ok(Undefined)
  {
  }

  /**
   * A rewritten line whose promise rejects with `undefined` gets no reply:
   * `isRecoverableError` throws inside the `catch` block.
   */
  lemma RejectedWithUndefinedGetsNoReply(s: string, t: string, ev: Evaluator)
    requires t != "" && t != s
    requires Complete(ev, t) == Called(Undefined, Promise(Rejected(Undefined)))
    ensures Hook(s, Some(t), ev) == NoReply
  {
  }

  /** A rewritten line awaits the evaluator's promise before replying. */
  lemma AsyncValueIsAwaited(s: string, t: string, ev: Evaluator, x: Value)
    requires t != "" && t != s && !x.Promise?
    requires Complete(ev, t) == Called(Undefined, Promise(Fulfilled(x)))
    ensures Hook(s, Some(t), ev) == Ok(x)
  {
  }
}
