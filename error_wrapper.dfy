/**
 * `ErrorWrapper` (`py_globals/wrappers.py`): a value built lazily by `init`,
 * rebuilt when it is missing, and dropped when a run on it raises an
 * exception of the wrapper's error type.
 *
 * Calls into `init` and `run` are not visible here: what one call of `init`
 * does is a parameter of the operation that makes it, and `run` is a function
 * of the value it is given.  An exception is a value of type `E`; `isErrType`
 * says whether `except self.err_type` catches it.  The handler `on_err` is
 * modelled by the sequence of exceptions it has been handed.
 */
module PyGlobals {
  import opened Wrappers

  /** What one call does: return a value, or raise an exception. */
  datatype Outcome<T, E> = Return(value: T) | Raise(error: E)

  /** What `_try_init` does: finish (returning `None`), return the caught exception, or let one escape. */
  datatype InitResult<E> = InitDone | InitCaught(error: E) | InitEscaped(error: E)

  /** What `exec` does: return `run`'s result, return a caught exception, or let one escape. */
  datatype ExecResult<R, E> = Returned(result: R) | Caught(error: E) | Escaped(error: E)

  /** `self.value` (Python's `None` is `None`) and the exceptions given to `on_err` so far. */
  datatype WrapperState<V, E> = WrapperState(value: Option<V>, handled: seq<E>)

  /** `_try_init` on the state `s`, when the call of `init` does `init`. */
  function TryInitStep<V, E>(s: WrapperState<V, E>, isErrType: E -> bool, init: Outcome<Option<V>, E>)
    : (WrapperState<V, E>, InitResult<E>)
  {
    match init
    case Return(v) => (s.(value := v), InitDone)
    case Raise(e) =>
      if isErrType(e) then (s.(handled := s.handled + [e]), InitCaught(e))
      else (s, InitEscaped(e))
  }

  /**
   * `exec(run)` on the state `s`: `init` is what the call of `init` would do
   * if the value is missing.
   */
  function ExecStep<V, E, R>(s: WrapperState<V, E>, isErrType: E -> bool,
                             init: Outcome<Option<V>, E>, run: Option<V> -> Outcome<R, E>)
    : (WrapperState<V, E>, ExecResult<R, E>)
  {
    var (s1, ir) := if s.value.None? then TryInitStep(s, isErrType, init) else (s, InitDone);
    match ir
    case InitCaught(e) => (s1, Caught(e))
    case InitEscaped(e) => (s1, Escaped(e))
    case InitDone =>
      match run(s1.value)
      case Return(r) => (s1, Returned(r))
      case Raise(e) =>
        if isErrType(e) then (WrapperState(None, s1.handled + [e]), Caught(e))
        else (s1, Escaped(e))
  }

  /**
   * One call of `init`: on success the value is what it returned and `on_err`
   * is not called; an exception of the error type goes to `on_err` once and
   * leaves the value alone; any other exception changes nothing.
   */
  lemma TryInitOutcomes<V, E>(s: WrapperState<V, E>, isErrType: E -> bool, init: Outcome<Option<V>, E>)
    ensures init.Return? ==> TryInitStep(s, isErrType, init) == (WrapperState(init.value, s.handled), InitDone)
    ensures init.Raise? && isErrType(init.error) ==>
              TryInitStep(s, isErrType, init) == (WrapperState(s.value, s.handled + [init.error]), InitCaught(init.error))
    ensures init.Raise? && !isErrType(init.error) ==>
              TryInitStep(s, isErrType, init) == (s, InitEscaped(init.error))
  {
  }

  /**
   * With no value, `exec` first retries `init`; if that raises an exception of
   * the error type, `exec` returns it without calling `run`: the outcome is the
   * same whatever `run` is.
   */
  lemma FailedRetrySkipsRun<V, E, R>(s: WrapperState<V, E>, isErrType: E -> bool, e: E,
                                      run: Option<V> -> Outcome<R, E>, other: Option<V> -> Outcome<R, E>)
    requires s.value.None? && isErrType(e)
    ensures ExecStep(s, isErrType, Raise(e), run) == (WrapperState(None, s.handled + [e]), Caught(e))
    ensures ExecStep(s, isErrType, Raise(e), run) == ExecStep(s, isErrType, Raise(e), other)
  {
  }

  /** With a value, `init` is not called: `exec` gives `run(value)`'s result and keeps the state. */
  lemma ExecWithValue<V, E, R>(s: WrapperState<V, E>, isErrType: E -> bool,
                               init: Outcome<Option<V>, E>, other: Outcome<Option<V>, E>,
                               run: Option<V> -> Outcome<R, E>)
    requires s.value.Some?
    ensures ExecStep(s, isErrType, init, run) == ExecStep(s, isErrType, other, run)
    ensures run(s.value).Return? ==> ExecStep(s, isErrType, init, run) == (s, Returned(run(s.value).value))
  {
  }

  /**
   * When `run` raises an exception of the error type, the value is dropped,
   * `on_err` receives that exception once, and `exec` returns it.
   */
  lemma CaughtRunResets<V, E, R>(s: WrapperState<V, E>, isErrType: E -> bool,
                                  init: Outcome<Option<V>, E>, run: Option<V> -> Outcome<R, E>)
    requires s.value.Some? && run(s.value).Raise? && isErrType(run(s.value).error)
    ensures ExecStep(s, isErrType, init, run) ==
            (WrapperState(None, s.handled + [run(s.value).error]), Caught(run(s.value).error))
  {
  }

  /**
   * An exception of another type escapes from `exec`, and the value and
   * `on_err` stay as `init` left them.
   */
  lemma OtherExceptionsEscape<V, E, R>(s: WrapperState<V, E>, isErrType: E -> bool,
                                       init: Outcome<Option<V>, E>, run: Option<V> -> Outcome<R, E>)
    ensures init.Raise? && s.value.None? && !isErrType(init.error) ==>
              ExecStep(s, isErrType, init, run) == (s, Escaped(init.error))
    ensures s.value.Some? && run(s.value).Raise? && !isErrType(run(s.value).error) ==>
              ExecStep(s, isErrType, init, run) == (s, Escaped(run(s.value).error))
  {
  }

  /**
   * If `init` returns `None` without raising, the value stays missing and
   * `exec` goes on to call `run(None)`.
   */
  lemma InitReturningNoneRunsOnNone<V, E, R>(s: WrapperState<V, E>, isErrType: E -> bool,
                                             run: Option<V> -> Outcome<R, E>)
    requires s.value.None?
    ensures run(None).Return? ==> ExecStep(s, isErrType, Return(None), run) == (s, Returned(run(None).value))
    ensures run(None).Raise? && isErrType(run(None).error) ==>
              ExecStep(s, isErrType, Return(None), run) == (WrapperState(None, s.handled + [run(None).error]), Caught(run(None).error))
  {
  }

  /** `on_err` is called at most once per `exec`, and only with the exception `exec` returns. */
  lemma HandlerCalledAtMostOnce<V, E, R>(s: WrapperState<V, E>, isErrType: E -> bool,
                                         init: Outcome<Option<V>, E>, run: Option<V> -> Outcome<R, E>)
    ensures var (s', r) := ExecStep(s, isErrType, init, run);
            (s'.handled == s.handled && !r.Caught?) ||
            (r.Caught? && s'.handled == s.handled + [r.error] && isErrType(r.error) && s'.value.None?)
  {
  }

  class ErrorWrapper<V, E> {
    /** `except self.err_type`: the exceptions the wrapper catches. */
    const isErrType: E -> bool
    var value: Option<V>
    /** The exceptions handed to `on_err`, oldest first. */
    var handled: seq<E>

    function State(): WrapperState<V, E>
      reads this
    {
      WrapperState(value, handled)
    }

    /** The fields `__init__` sets before it calls `_try_init`. */
    constructor (isErrType: E -> bool)
      ensures this.isErrType == isErrType && value.None? && handled == []
    {
      this.isErrType := isErrType;
      value := None;
      handled := [];
    }

    /** `_try_init`. */
    method TryInit(init: Outcome<Option<V>, E>) returns (r: InitResult<E>)
      modifies this
      ensures (State(), r) == TryInitStep(old(State()), isErrType, init)
    {
      match init {
        case Return(v) =>
          value := v;
          r := InitDone;
        case Raise(e) =>
          if isErrType(e) {
            handled := handled + [e];
            r := InitCaught(e);
          } else {
            r := InitEscaped(e);
          }
      }
    }

    /** `exec(run)`; `init` is what the call of `init` does if one is made. */
    method Exec<R>(init: Outcome<Option<V>, E>, run: Option<V> -> Outcome<R, E>) returns (r: ExecResult<R, E>)
      modifies this
      ensures (State(), r) == ExecStep(old(State()), isErrType, init, run)
    {
      if value.None? {
        var result := TryInit(init);
        match result {
          case InitCaught(e) => return Caught(e);
          case InitEscaped(e) => return Escaped(e);
          case InitDone =>
        }
      }
      match run(value) {
        case Return(x) =>
          r := Returned(x);
        case Raise(e) =>
          if isErrType(e) {
            value := None;
            handled := handled + [e];
            r := Caught(e);
          } else {
            r := Escaped(e);
          }
      }
    }
  }

  /**
   * `ErrorWrapper(init, err_type, on_err)`: construction calls `init` once; an
   * exception of another type escapes from the constructor and no wrapper is made.
   */
  method NewErrorWrapper<V, E>(isErrType: E -> bool, init: Outcome<Option<V>, E>)
    returns (r: Result<ErrorWrapper<V, E>, E>)
    ensures r.Err? <==> init.Raise? && !isErrType(init.error)
    ensures r.Err? ==> r.error == init.error
    ensures r.Ok? ==> fresh(r.value) && r.value.isErrType == isErrType &&
                      r.value.State() == TryInitStep(WrapperState(None, []), isErrType, init).0
  {
    var w := new ErrorWrapper(isErrType);
    var result := w.TryInit(init);
    if result.InitEscaped? {
      return Err(result.error);
    }
    return Ok(w);
  }
}
