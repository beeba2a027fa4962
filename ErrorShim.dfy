/** The error handlers every build pipeline attaches to its `error` event
    (gulp_modules/error.js). A handler logs the error's message and ends the
    process with status 1 when the error's level is fatal; fatality compares
    positions in the list of severity levels against a threshold that defaults
    to "error". Logging and exiting are returned as a decision. */
module ErrorShim {
  import opened JsValues
  import opened JsStrings
  import opened Common

  /** `ERROR_LEVELS`, most severe first. */
  const ErrorLevels: seq<JsValue> := [Str("error"), Str("warning")]

  /** `fatalLevel || 'error'`: a falsy threshold falls back to "error". */
  function Threshold(fatalLevel: JsValue): (t: JsValue)
    ensures Truthy(fatalLevel) ==> t == fatalLevel
    ensures !Truthy(fatalLevel) ==> t == Str("error")
  {
    if Truthy(fatalLevel) then fatalLevel else Str("error")
  }

  /** `isFatal(level)`: the level's position in the list is at most the
      threshold's. A value missing from the list has position -1. */
  predicate IsFatal(level: string, fatalLevel: JsValue)
  {
    SeqIndexOf(ErrorLevels, Str(level)) <= SeqIndexOf(ErrorLevels, Threshold(fatalLevel))
  }

  /** The error object a stream emits; only its `message` is read. */
  datatype ErrorObject = ErrorObject(message: JsValue)

  /** What `handleError` does: log the message and go on, or log it and end
      the process with an exit status. */
  datatype Decision = Continue(logged: JsValue) | Exit(logged: JsValue, status: int)

  /** `handleError(level, error)`: the message is always logged first; the
      process exits with status 1 exactly when the level is fatal. */
  function HandleError(level: string, error: ErrorObject, fatalLevel: JsValue): (d: Decision)
    ensures d.logged == error.message
    ensures d.Exit? <==> IsFatal(level, fatalLevel)
    ensures d.Exit? ==> d.status == 1
  {
    if IsFatal(level, fatalLevel) then Exit(error.message, 1) else Continue(error.message)
  }

  /** `onError`: handles the error at level "error", which ends the process
      under every threshold that is one of the listed levels. */
  function OnError(error: ErrorObject, fatalLevel: JsValue): (d: Decision)
    ensures d.logged == error.message
    ensures d.Exit? <==> Threshold(fatalLevel) in ErrorLevels
    ensures d.Exit? ==> d.status == 1
  {
    HandleError("error", error, fatalLevel)
  }

  /** `onWarning`: handles the error at level "warning", which ends the process
      only under the threshold "warning". */
  function OnWarning(error: ErrorObject, fatalLevel: JsValue): (d: Decision)
    ensures d.logged == error.message
    ensures d.Exit? <==> Threshold(fatalLevel) == Str("warning")
    ensures d.Exit? ==> d.status == 1
  {
    HandleError("warning", error, fatalLevel)
  }

  // ---------------------------------------------------------------------
  // Properties of the severity decision
  // ---------------------------------------------------------------------

  /** Every level, known or not, is fatal or not according to this table: an
      unknown level always is; "error" is unless the threshold is unknown;
      "warning" is only under the threshold "warning". */
  lemma FatalityTable(level: string, fatalLevel: JsValue)
    ensures IsFatal(level, fatalLevel) <==>
      || (level != "error" && level != "warning")
      || (level == "error" && Threshold(fatalLevel) in ErrorLevels)
      || (level == "warning" && Threshold(fatalLevel) == Str("warning"))
  {
  }

  /** With no threshold set, errors are fatal and warnings are not, so the
      default handlers exit on an error and only log a warning. */
  lemma DefaultThreshold(error: ErrorObject)
    ensures IsFatal("error", Undefined) && !IsFatal("warning", Undefined)
    ensures OnError(error, Undefined) == Exit(error.message, 1)
    ensures OnWarning(error, Undefined) == Continue(error.message)
  {
    FatalityTable("error", Undefined);
    FatalityTable("warning", Undefined);
  }

  /** A level not in the list, such as "info", has position -1 and is fatal
      under every threshold. */
  lemma UnknownLevelAlwaysFatal(level: string, fatalLevel: JsValue)
    requires Str(level) !in ErrorLevels
    ensures IsFatal(level, fatalLevel)
  {
  }

  /** Under the threshold "warning" every level is fatal. */
  lemma WarningThresholdMakesAllFatal(level: string)
    ensures IsFatal(level, Str("warning"))
  {
    FatalityTable(level, Str("warning"));
  }

  /** A threshold that is not in the list leaves only unknown levels fatal: the
      two listed levels are never fatal under it. */
  lemma UnknownThresholdSparesKnownLevels(level: string, fatalLevel: JsValue)
    requires Threshold(fatalLevel) !in ErrorLevels && Str(level) in ErrorLevels
    ensures !IsFatal(level, fatalLevel)
  {
  }

  /** Fatality is monotone in the threshold: raising the threshold's position
      keeps every fatal level fatal. */
  lemma FatalityMonotone(level: string, t1: JsValue, t2: JsValue)
    requires SeqIndexOf(ErrorLevels, Threshold(t1)) <= SeqIndexOf(ErrorLevels, Threshold(t2))
    requires IsFatal(level, t1)
    ensures IsFatal(level, t2)
  {
  }

  /** A falsy threshold behaves as "error". */
  lemma FalsyThresholdIsError(level: string, fatalLevel: JsValue)
    requires !Truthy(fatalLevel)
    ensures IsFatal(level, fatalLevel) <==> IsFatal(level, Str("error"))
  {
  }

  // ---------------------------------------------------------------------
  // The handler as written reads an undeclared threshold
  // ---------------------------------------------------------------------

  /** How a call of the handler as written ends: with a decision, or by throwing
      an error (named by its constructor) after the message was logged. */
  datatype HandlerRun = Decided(decision: Decision) | LoggedThenThrew(logged: JsValue, errorName: string)

  /** `handleError` as written: `fatalLevel` is not declared anywhere, so the
      threshold is whatever a global binding of that name holds. The message is
      logged first; then `isFatal` reads the threshold, which throws a
      ReferenceError when there is no such binding. */
  function HandleErrorAsWritten(level: string, error: ErrorObject,
                                globalFatalLevel: Option<JsValue>): (r: HandlerRun)
    ensures globalFatalLevel.None? <==> r.LoggedThenThrew?
    ensures r.LoggedThenThrew? ==> r.logged == error.message && r.errorName == "ReferenceError"
    ensures globalFatalLevel.Some? ==> r == Decided(HandleError(level, error, globalFatalLevel.value))
  {
    match globalFatalLevel
    case None => LoggedThenThrew(error.message, "ReferenceError")
    case Some(v) => Decided(HandleError(level, error, v))
  }

  /** Without a global `fatalLevel`, every call logs the message and then throws
      instead of deciding: even a warning, which the default threshold means to
      let pass, ends in a ReferenceError, while the intended handler only logs it. */
  lemma {:induction false} UndeclaredThresholdThrows(error: ErrorObject)
    ensures HandleErrorAsWritten("warning", error, None) == LoggedThenThrew(error.message, "ReferenceError")
    ensures HandleErrorAsWritten("error", error, None) == LoggedThenThrew(error.message, "ReferenceError")
    ensures OnWarning(error, Undefined) == Continue(error.message)
  {
    DefaultThreshold(error);
  }
}
