/** `processBuffer` of the command-line front end: drains the decoding
    steps in the order they arrive, writes the surface text of each token,
    then a single line break, and signals completion on the `done` channel
    on every way out. The channel is modelled by the finite sequence of the
    steps it delivers before it is closed. */
module Render {
  import opened Wrappers

  /** The part of a decoding step that the front end reads. */
  datatype DecodingStep = DecodingStep(tokenID: int)

  /** "failed to reconstruct text for token ID %d": the lookup's own error
      is dropped, only the token ID is kept. */
  datatype RenderError = TokenNotFound(tokenID: int)

  /** Standard output as an `io.StringWriter`: the text written so far. */
  class Writer {
    var written: string

    constructor ()
      ensures written == ""
    {
      written := "";
    }

    method WriteString(s: string)
      modifies this
      ensures written == old(written) + s
    {
      written := written + s;
    }
  }

  /** The `done` channel: it can be closed once. */
  class Done {
    var closed: bool

    constructor ()
      ensures !closed
    {
      closed := false;
    }

    method Close()
      requires !closed
      modifies this
      ensures closed
    {
      closed := true;
    }
  }

  /** The text `processBuffer` writes for `steps`, and the error it returns. */
  function Render(steps: seq<DecodingStep>, tokenByID: int -> Option<string>): (string, Option<RenderError>)
  {
    if steps == [] then ("\n", None)
    else
      match tokenByID(steps[0].tokenID)
      case None => ("", Some(TokenNotFound(steps[0].tokenID)))
      case Some(token) =>
        var (rest, err) := Render(steps[1..], tokenByID);
        (token + rest, err)
  }

  method ProcessBuffer(buffer: seq<DecodingStep>, w: Writer, done: Done, tokenByID: int -> Option<string>)
    returns (err: Option<RenderError>)
    requires !done.closed
    modifies w, done
    ensures done.closed
    ensures w.written == old(w.written) + Render(buffer, tokenByID).0
    ensures err == Render(buffer, tokenByID).1
  {
    ghost var start := w.written;
    var i := 0;
    while i < |buffer|
      invariant 0 <= i <= |buffer|
      invariant !done.closed
      invariant Render(buffer, tokenByID).1 == Render(buffer[i..], tokenByID).1
      invariant start + Render(buffer, tokenByID).0 == w.written + Render(buffer[i..], tokenByID).0
    {
      var step := buffer[i];
      assert buffer[i..][1..] == buffer[i + 1..];
      var token := tokenByID(step.tokenID);
      if token.None? {
        done.Close();
        return Some(TokenNotFound(step.tokenID));
      }
      w.WriteString(token.value);
      i := i + 1;
    }
    w.WriteString("\n");
    done.Close();
    return None;
  }

  /** Concatenation of a sequence of texts. */
  function Concat(texts: seq<string>): string
  {
    if texts == [] then "" else texts[0] + Concat(texts[1..])
  }

  predicate AllKnown(steps: seq<DecodingStep>, tokenByID: int -> Option<string>)
  {
    forall i :: 0 <= i < |steps| ==> tokenByID(steps[i].tokenID).Some?
  }

  /** The surface texts of `steps`, in channel order. */
  function Surfaces(steps: seq<DecodingStep>, tokenByID: int -> Option<string>): (texts: seq<string>)
    requires AllKnown(steps, tokenByID)
    ensures |texts| == |steps|
  {
    seq(|steps|, i requires 0 <= i < |steps| => tokenByID(steps[i].tokenID).value)
  }

  /** When every lookup succeeds, the output is the surface texts in order
      followed by exactly one line break, and no error is returned. */
  lemma {:induction false} RenderAllKnown(steps: seq<DecodingStep>, tokenByID: int -> Option<string>)
    requires AllKnown(steps, tokenByID)
    ensures Render(steps, tokenByID) == (Concat(Surfaces(steps, tokenByID)) + "\n", None)
    decreases |steps|
  {
    if steps != [] {
      RenderAllKnown(steps[1..], tokenByID);
      var texts := Surfaces(steps, tokenByID);
      assert texts[1..] == Surfaces(steps[1..], tokenByID);
      assert tokenByID(steps[0].tokenID) == Some(texts[0]);
      assert Concat(texts) == texts[0] + Concat(texts[1..]);
      assert (texts[0] + Concat(texts[1..])) + "\n" == texts[0] + (Concat(texts[1..]) + "\n");
    } else {
      assert Surfaces(steps, tokenByID) == [];
      assert Concat([]) + "\n" == "\n";
      assert Render(steps, tokenByID) == ("\n", None);
    }
  }

  /** When the lookup first fails at step `k`, the error names that step's
      token ID and the output is the texts of the steps before it, with no
      line break added. */
  lemma {:induction false} RenderFirstUnknown(steps: seq<DecodingStep>, tokenByID: int -> Option<string>, k: nat)
    requires k < |steps|
    requires AllKnown(steps[..k], tokenByID)
    requires tokenByID(steps[k].tokenID).None?
    ensures Render(steps, tokenByID)
            == (Concat(Surfaces(steps[..k], tokenByID)), Some(TokenNotFound(steps[k].tokenID)))
    decreases k
  {
    if k > 0 {
      assert steps[1..][..k - 1] == steps[..k][1..];
      RenderFirstUnknown(steps[1..], tokenByID, k - 1);
      assert Surfaces(steps[..k], tokenByID)[1..] == Surfaces(steps[1..][..k - 1], tokenByID);
    }
  }

  /** An error is returned exactly when some token has no surface form. */
  lemma {:induction false} RenderFailsIff(steps: seq<DecodingStep>, tokenByID: int -> Option<string>)
    ensures Render(steps, tokenByID).1.None? <==> AllKnown(steps, tokenByID)
    decreases |steps|
  {
    if steps != [] && tokenByID(steps[0].tokenID).Some? {
      RenderFailsIff(steps[1..], tokenByID);
      assert forall i :: 1 <= i < |steps| ==> steps[i] == steps[1..][i - 1];
    }
  }
}
