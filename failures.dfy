/**
 * Throwables and the classification of read failures (`handleException`).
 * Throwables are objects, as in Java: identity matters for the
 * self-suppression test and `addSuppressed` updates the original in place.
 */
module Failures {
  import opened Wrappers

  /** Error codes a `TrinoException` carries. */
  datatype ErrorCode = HiveBadData | HiveCursorError | OtherErrorCode(name: string)

  /** The Java class of a throwable, as far as the page source tells them apart. */
  datatype Kind =
    | TrinoException(code: ErrorCode)  // a runtime exception that is already classified
    | OrcCorruption                    // OrcCorruptionException, an IOException
    | OtherIO                          // any other IOException
    | UncheckedIO                      // UncheckedIOException, a runtime exception
    | OtherRuntime                     // any other RuntimeException
    | JavaError                        // java.lang.Error: neither of the two exception families

  predicate IsIOException(k: Kind)
  {
    k.OrcCorruption? || k.OtherIO?
  }

  predicate IsRuntimeException(k: Kind)
  {
    k.TrinoException? || k.UncheckedIO? || k.OtherRuntime?
  }

  /** What `catch (IOException | RuntimeException e)` catches. */
  predicate IsException(k: Kind)
  {
    IsIOException(k) || IsRuntimeException(k)
  }

  class Throwable {
    const kind: Kind
    const message: Option<string>
    const cause: Option<Throwable>
    var suppressed: seq<Throwable>

    constructor (kind: Kind, message: Option<string>, cause: Option<Throwable>)
      ensures this.kind == kind && this.message == message && this.cause == cause
      ensures suppressed == []
    {
      this.kind := kind;
      this.message := message;
      this.cause := cause;
      suppressed := [];
    }

    /** Java refuses self-suppression, so the caller must rule it out. */
    method AddSuppressed(e: Throwable)
      requires e != this
      modifies this
      ensures suppressed == old(suppressed) + [e]
    {
      suppressed := suppressed + [e];
    }
  }

  const CURSOR_ERROR_PREFIX: string := "Failed to read ORC file: "

  /** The message of a generic read failure names the data source. */
  function CursorErrorMessage(dataSourceId: string): (m: string)
    ensures |m| == |CURSOR_ERROR_PREFIX| + |dataSourceId|
    ensures m[..|CURSOR_ERROR_PREFIX|] == CURSOR_ERROR_PREFIX
    ensures m[|CURSOR_ERROR_PREFIX|..] == dataSourceId
  {
    CURSOR_ERROR_PREFIX + dataSourceId
  }

  /** How `handleException` treats a failure: pass it on, or wrap it as the cause of a new TrinoException. */
  datatype Handling = PassThrough | Wrap(code: ErrorCode, message: Option<string>)

  function Classify(dataSourceId: string, k: Kind): (h: Handling)
    requires IsException(k)
    ensures h.PassThrough? <==> k.TrinoException?
    ensures h == Wrap(HiveBadData, None) <==> k.OrcCorruption?
    ensures h.Wrap? && !k.OrcCorruption? ==>
              h.code == HiveCursorError && h.message == Some(CursorErrorMessage(dataSourceId))
  {
    if k.TrinoException? then PassThrough
    else if k.OrcCorruption? then Wrap(HiveBadData, None)
    else Wrap(HiveCursorError, Some(CursorErrorMessage(dataSourceId)))
  }

  /**
   * `handleException`: the result is always a TrinoException; an exception that
   * already is one is returned as the same object, any other becomes the cause
   * of a fresh one with the classified code.
   */
  method HandleException(dataSourceId: string, exception: Throwable) returns (t: Throwable)
    requires IsException(exception.kind)
    ensures t.kind.TrinoException?
    ensures Classify(dataSourceId, exception.kind).PassThrough? ==> t == exception
    ensures Classify(dataSourceId, exception.kind).Wrap? ==>
              && fresh(t)
              && t.kind == TrinoException(Classify(dataSourceId, exception.kind).code)
              && t.message == Classify(dataSourceId, exception.kind).message
              && t.cause == Some(exception)
              && t.suppressed == []
  {
    match Classify(dataSourceId, exception.kind)
    case PassThrough =>
      t := exception;
    case Wrap(code, message) =>
      t := new Throwable(TrinoException(code), message, Some(exception));
  }
}
