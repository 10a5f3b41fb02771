/** `forEachInput` of the command-line front end: every non-empty line the
    scanner yields becomes a prompt, with each two-character escape `\n`
    turned into a real line break, and is handed to the callback; the first
    callback error ends the loop and is returned as it is. The scanner is
    modelled by the lines it yields followed by the error it reports at the
    end, if any. */
module Input {
  import opened Wrappers
  import opened GoStrings

  /** What `forEachInput` returns instead of nil: the callback's own error,
      or the scanner's error wrapped as "scanner error: %w". */
  datatype InputError<+E> = CallbackFailed(cause: E) | ScannerFailed(scanError: string)
  {
    /** The text of a wrapped scanner error. */
    function ScannerMessage(): string
      requires ScannerFailed?
    {
      "scanner error: " + scanError
    }
  }

  /** The prompts the input lines stand for, in input order: empty lines are
      dropped before the escape is replaced. */
  function Prompts(lines: seq<string>): (prompts: seq<string>)
    ensures |prompts| <= |lines|
    ensures forall i :: 0 <= i < |prompts| ==> prompts[i] != "" && !HasEscapedNewline(prompts[i])
  {
    if lines == [] then []
    else if lines[0] == "" then Prompts(lines[1..])
    else [UnescapeNewlines(lines[0])] + Prompts(lines[1..])
  }

  /** Number of non-empty lines. */
  function NonEmptyCount(lines: seq<string>): nat
  {
    if lines == [] then 0 else (if lines[0] == "" then 0 else 1) + NonEmptyCount(lines[1..])
  }

  /** Handing `prompts` to `callback` in order until one fails: the prompts
      delivered and the first error. */
  function Deliver<E>(prompts: seq<string>, callback: string -> Option<E>): (seq<string>, Option<E>)
  {
    if prompts == [] then ([], None)
    else
      match callback(prompts[0])
      case Some(e) => ([prompts[0]], Some(e))
      case None =>
        var (rest, err) := Deliver(prompts[1..], callback);
        ([prompts[0]] + rest, err)
  }

  /** The error `forEachInput` returns once the callback has seen what
      `Deliver` hands it: the callback's error first, then the scanner's. */
  function Outcome<E>(callbackError: Option<E>, scanError: Option<string>): Option<InputError<E>>
  {
    if callbackError.Some? then Some(CallbackFailed(callbackError.value))
    else if scanError.Some? then Some(ScannerFailed(scanError.value))
    else None
  }

  /** The loop of `forEachInput`. `calls` records, in order, every text the
      callback was invoked with. */
  method ForEachInput<E>(lines: seq<string>, scanError: Option<string>, callback: string -> Option<E>)
    returns (calls: seq<string>, err: Option<InputError<E>>)
    ensures calls == Deliver(Prompts(lines), callback).0
    ensures err == Outcome(Deliver(Prompts(lines), callback).1, scanError)
    ensures forall k :: 0 <= k < |calls| ==> calls[k] != "" && !HasEscapedNewline(calls[k])
  {
    ghost var total := Deliver(Prompts(lines), callback);
    calls := [];
    var i := 0;
    assert lines[i..] == lines;
    while i < |lines|
      invariant 0 <= i <= |lines|
      invariant total.0 == calls + Deliver(Prompts(lines[i..]), callback).0
      invariant total.1 == Deliver(Prompts(lines[i..]), callback).1
      invariant forall k :: 0 <= k < |calls| ==> calls[k] != "" && !HasEscapedNewline(calls[k])
    {
      var text := lines[i];
      assert lines[i..][1..] == lines[i + 1..];
      i := i + 1;
      if text == "" {
        continue;
      }
      text := UnescapeNewlines(text);
      calls := calls + [text];
      var e := callback(text);
      if e.Some? {
        return calls, Some(CallbackFailed(e.value));
      }
    }
    if scanError.Some? {
      return calls, Some(ScannerFailed(scanError.value));
    }
    return calls, None;
  }

  /** The callback is never invoked on an empty text nor on one that still
      holds the escape, sees the prompts in input order, and every call
      before the last one succeeded. */
  lemma {:induction false} DeliverPrefix<E>(prompts: seq<string>, callback: string -> Option<E>)
    ensures var (calls, err) := Deliver(prompts, callback);
            && |calls| <= |prompts|
            && calls == prompts[..|calls|]
            && (forall i :: 0 <= i < |calls| - 1 ==> callback(calls[i]).None?)
    decreases |prompts|
  {
    if prompts != [] && callback(prompts[0]).None? {
      DeliverPrefix(prompts[1..], callback);
      var rest := Deliver(prompts[1..], callback).0;
      assert prompts[..|rest| + 1] == [prompts[0]] + prompts[1..][..|rest|];
    }
  }

  /** The loop stops at the first failing prompt and reports that very
      error; it runs through all prompts exactly when none fails. */
  lemma {:induction false} DeliverStopsAtFirstError<E>(prompts: seq<string>, callback: string -> Option<E>)
    ensures var (calls, err) := Deliver(prompts, callback);
            && (err.Some? <==> calls != [] && callback(calls[|calls| - 1]).Some?)
            && (err.Some? ==> err == callback(calls[|calls| - 1]))
            && (err.None? ==> calls == prompts)
            && (err.None? <==> forall i :: 0 <= i < |prompts| ==> callback(prompts[i]).None?)
    decreases |prompts|
  {
    if prompts != [] && callback(prompts[0]).None? {
      DeliverStopsAtFirstError(prompts[1..], callback);
      DeliverPrefix(prompts[1..], callback);
      var rest := Deliver(prompts[1..], callback).0;
      assert forall i :: 1 <= i < |prompts| ==> prompts[i] == prompts[1..][i - 1];
      if rest != [] {
        assert ([prompts[0]] + rest)[|rest|] == rest[|rest| - 1];
      }
    }
  }

  /** One prompt per non-empty line: blank lines never reach the callback,
      and any line with text does. */
  lemma {:induction false} PromptsCount(lines: seq<string>)
    ensures |Prompts(lines)| == NonEmptyCount(lines)
    decreases |lines|
  {
    if lines != [] {
      PromptsCount(lines[1..]);
    }
  }

  /** Reading more input appends its prompts after the earlier ones. */
  lemma {:induction false} PromptsAppend(a: seq<string>, b: seq<string>)
    ensures Prompts(a + b) == Prompts(a) + Prompts(b)
    decreases |a|
  {
    if a != [] {
      assert (a + b)[1..] == a[1..] + b;
      PromptsAppend(a[1..], b);
    } else {
      assert a + b == b;
    }
  }

  /** A line holding no escape reaches the callback unchanged. */
  lemma PromptOfPlainLine(line: string)
    requires line != "" && !HasEscapedNewline(line)
    ensures Prompts([line]) == [line]
  {
    UnescapeIdentity(line);
  }

  // ---------------------------------------------------------------------
  // What `inference` does with the error `forEachInput` returns

  /** How the `inference` subcommand ends once the input is exhausted. */
  datatype Ending<+E> = Finished | FatalExit(cause: InputError<E>)

  /** As written: the fatal log event is built but never sent, so nothing is
      logged, the process does not exit, and `inference` returns nil. */
  function EndInferenceAsWritten<E>(err: Option<InputError<E>>): Ending<E>
  {
    Finished
  }

  /** The callback `inference` hands to `forEachInput`: it returns nil on
      every prompt, since a failed generation exits the process inside it. */
  function InferenceCallback<E>(text: string): Option<E>
  {
    None
  }

  /** Evidence: whatever the input, a scanner error (a line too long for the
      scanner, say) reaches `inference` as the wrapped scanner error, and the
      as-written ending treats it as if the input had simply run out, where
      the intended ending is a fatal exit with that error. */
  lemma ScannerErrorIsDropped<E>(lines: seq<string>, scanError: string)
    ensures var err := Outcome(Deliver(Prompts(lines), InferenceCallback<E>).1, Some(scanError));
            && err == Some(ScannerFailed(scanError))
            && EndInferenceAsWritten(err) == Finished
            && EndInference(err) == FatalExit(ScannerFailed(scanError))
  {
    DeliverStopsAtFirstError(Prompts(lines), InferenceCallback<E>);
  }

  /** As intended: any error that ended the input loop ends the process
      fatally with that error, and only then. */
  function EndInference<E>(err: Option<InputError<E>>): (e: Ending<E>)
    ensures e.FatalExit? <==> err.Some?
    ensures e.FatalExit? ==> e.cause == err.value
  {
    if err.Some? then FatalExit(err.value) else Finished
  }

  /** End to end, as intended: `inference` ends fatally exactly when the
      scanner failed or some prompt's callback failed; a callback failure
      takes precedence, and otherwise the cause is the scanner's error. */
  lemma InferenceEndsFatallyIff<E>(lines: seq<string>, scanError: Option<string>, callback: string -> Option<E>)
    ensures var prompts := Prompts(lines);
            var e := EndInference(Outcome(Deliver(prompts, callback).1, scanError));
            && (e.FatalExit? <==>
                  scanError.Some? || exists i :: 0 <= i < |prompts| && callback(prompts[i]).Some?)
            && ((exists i :: 0 <= i < |prompts| && callback(prompts[i]).Some?) ==> e.cause.CallbackFailed?)
            && ((forall i :: 0 <= i < |prompts| ==> callback(prompts[i]).None?) && scanError.Some?
                ==> e == FatalExit(ScannerFailed(scanError.value)))
  {
    DeliverStopsAtFirstError(Prompts(lines), callback);
  }
}
