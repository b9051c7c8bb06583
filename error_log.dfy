/** The error detector: global handlers for uncaught errors and unhandled
    promise rejections record at most fifty entries, try to recover from a
    known failure of the highlighted-letters feature, and keep errors of the
    plugin's own files out of the browser console. */
module ErrorLog {
  import opened Js

  const MaxErrors := 50

  /** An `error` event: its message, file name (empty when absent), position
      and the stack of its error object, when there is one. */
  datatype ErrorEvent = ErrorEvent(message: string, filename: string, lineno: int, colno: int, stack: Option<string>)

  /** An `unhandledrejection` event: its rejection reason, when there is one. */
  datatype Reason = Reason(message: Value, stack: Value)

  /** The two shapes of log entry; `timestamp` is the clock at the event. */
  datatype Entry =
    | Failure(message: string, source: string, lineno: int, colno: int, error: Option<string>, timestamp: string)
    | Rejection(reasonMessage: Value, reasonStack: Value, timestamp: string)

  /** The entry recorded for an `error` event. */
  function FailureEntry(ev: ErrorEvent, timestamp: string): Entry
  {
    Failure(ev.message, ev.filename, ev.lineno, ev.colno, ev.stack, timestamp)
  }

  /** The entry recorded for a rejection; 'Promessa rejeitada' without a reason. */
  function RejectionEntry(reason: Option<Reason>, timestamp: string): Entry
  {
    match reason
    case None => Rejection(Str("Promessa rejeitada"), Null, timestamp)
    case Some(r) => Rejection(r.message, r.stack, timestamp)
  }

  /** `event.filename && event.filename.includes('aguiaplugin')`. */
  predicate OwnFile(filename: string)
  {
    filename != [] && Contains(filename, "aguiaplugin")
  }

  /** `recoverFromError`: a message about `highlightedLetters` resets a falsy
      `window.highlightedLettersLevel` to 0; anything else is left alone. */
  function Recovered(message: string, level: Value): Value
  {
    if message != [] && Contains(message, "highlightedLetters") && !Truthy(level) then Num(0) else level
  }

  // ---------------------------------------------------------------------
  // The log as a value

  /** `errorCount` and `errorLog`. */
  datatype Log = Log(count: int, entries: seq<Entry>)

  /** What the handlers keep true: the count is the number of entries, and
      at most fifty. */
  predicate Valid(l: Log)
  {
    l.count == |l.entries| && 0 <= l.count <= MaxErrors
  }

  /** One event reaching a handler: recorded below the cap, dropped at it.
      Recording keeps the log valid. */
  function Record(l: Log, e: Entry): (r: Log)
    ensures Valid(l) ==> Valid(r)
    ensures l.count < MaxErrors ==> r.entries == l.entries + [e]
    ensures l.count >= MaxErrors ==> r == l
  {
    if l.count < MaxErrors then Log(l.count + 1, l.entries + [e]) else l
  }

  /** Events reaching the handlers one after another. */
  function RecordAll(l: Log, es: seq<Entry>): Log
    decreases |es|
  {
    if es == [] then l else RecordAll(Record(l, es[0]), es[1..])
  }

  function Min(a: int, b: int): int
  {
    if a <= b then a else b
  }

  /** From any valid log, the events that fit under the cap are appended in
      order, and the later ones are dropped. */
  lemma {:induction false} RecordAllKeepsFirst(l: Log, es: seq<Entry>)
    requires Valid(l)
    ensures Valid(RecordAll(l, es))
    ensures RecordAll(l, es).entries == l.entries + es[..Min(|es|, MaxErrors - l.count)]
    decreases |es|
  {
    if es != [] {
      var l' := Record(l, es[0]);
      RecordAllKeepsFirst(l', es[1..]);
      if l.count < MaxErrors {
        assert es[..Min(|es|, MaxErrors - l.count)] == [es[0]] + es[1..][..Min(|es| - 1, MaxErrors - l'.count)];
      } else {
        assert es[..Min(|es|, MaxErrors - l.count)] == [];
        assert es[1..][..Min(|es| - 1, MaxErrors - l'.count)] == [];
      }
    } else {
      assert es[..0] == [];
    }
  }

  /** After a clear, the log holds exactly the first fifty events. */
  lemma LogKeepsFirstFifty(es: seq<Entry>)
    ensures RecordAll(Log(0, []), es).entries == es[..Min(|es|, MaxErrors)]
    ensures RecordAll(Log(0, []), es).count <= MaxErrors
  {
    RecordAllKeepsFirst(Log(0, []), es);
  }

  // ---------------------------------------------------------------------
  // The detector

  class Detector {
    var errorCount: int
    var errorLog: seq<Entry>
    /** `window.highlightedLettersLevel`. */
    var highlightedLettersLevel: Value

    function Current(): Log
      reads this
    {
      Log(errorCount, errorLog)
    }

    /** The closure as the script leaves it. */
    constructor (level: Value)
      ensures Current() == Log(0, []) && highlightedLettersLevel == level
    {
      errorCount, errorLog, highlightedLettersLevel := 0, [], level;
    }

    /** The `error` handler. Returns whether it calls `preventDefault`. */
    method OnError(ev: ErrorEvent, timestamp: string) returns (prevented: bool)
      modifies this
      ensures Current() == Record(old(Current()), FailureEntry(ev, timestamp))
      ensures prevented <==> old(errorCount) < MaxErrors && OwnFile(ev.filename)
      ensures highlightedLettersLevel ==
              if prevented then Recovered(ev.message, old(highlightedLettersLevel))
              else old(highlightedLettersLevel)
    {
      prevented := false;
      if errorCount < MaxErrors {
        var error := FailureEntry(ev, timestamp);
        errorLog := errorLog + [error];
        errorCount := errorCount + 1;
        if ev.filename != [] && Contains(ev.filename, "aguiaplugin") {
          RecoverFromError(error.message);
          prevented := true;
        }
      }
    }

    /** `recoverFromError(error)`. */
    method RecoverFromError(message: string)
      modifies this
      ensures highlightedLettersLevel == Recovered(message, old(highlightedLettersLevel))
      ensures Current() == old(Current())
    {
      if message != [] && Contains(message, "highlightedLetters") {
        if !Truthy(highlightedLettersLevel) {
          highlightedLettersLevel := Num(0);
        }
      }
    }

    /** The `unhandledrejection` handler. */
    method OnRejection(reason: Option<Reason>, timestamp: string)
      modifies this
      ensures Current() == Record(old(Current()), RejectionEntry(reason, timestamp))
      ensures highlightedLettersLevel == old(highlightedLettersLevel)
    {
      if errorCount < MaxErrors {
        var error := RejectionEntry(reason, timestamp);
        errorLog := errorLog + [error];
        errorCount := errorCount + 1;
      }
    }

    /** `aguia_getErrorLog()`: a copy of the entries; nothing changes. */
    method GetErrorLog() returns (copy: seq<Entry>)
      ensures copy == errorLog
    {
      copy := errorLog[..];
    }

    /** `aguia_clearErrorLog()`. */
    method ClearErrorLog()
      modifies this
      ensures Current() == Log(0, [])
      ensures highlightedLettersLevel == old(highlightedLettersLevel)
    {
      errorLog := [];
      errorCount := 0;
    }
  }
}
