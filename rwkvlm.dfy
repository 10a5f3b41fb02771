/** The language-model wrapper around the recurrent encoder: construction
    from a configuration, and `Encode`, which threads the recurrent state
    through the embedded context. The embedding lookup and the recurrent
    cell (`rwkv.Model.Forward`) are opaque and enter as function values;
    the type parameters stand for embedding vectors (E), graph nodes (N) and
    recurrent states (S). A nil node is `None`. */
module Rwkvlm {
  import opened Wrappers

  datatype Config = Config(
    dModel: int,
    numHiddenLayers: int,
    rescaleLayer: int,
    vocabSize: int,
    embeddingsStoreName: string)

  /** The configuration handed to the recurrent encoder. */
  datatype EncoderConfig = EncoderConfig(dModel: int, numLayers: int, rescaleLayer: int)

  /** A layer normalisation: the vector size and epsilon. */
  datatype LayerNormConfig = LayerNormConfig(size: int, eps: real)

  /** Rows and columns of a weight matrix (its values are not modelled). */
  datatype Shape = Shape(rows: int, cols: int)

  datatype Model<!E, N, !S> = Model(
    config: Config,
    embed: int -> E,               // the embeddings: the vector of one token
    encoder: EncoderConfig,
    forward: (E, S) -> (N, S),     // the recurrent cell
    ln: LayerNormConfig,
    linear: Shape)

  /** What `Encode` returns: the last node and the new recurrent state. */
  datatype Encoded<N, S> = Encoded(node: Option<N>, state: S)

  /** `New`: `embeddings` stands for the embeddings built from the
      configuration and repository, `cell` for the recurrent encoder that
      the library builds from its configuration. */
  function New<E, N, S>(c: Config, embeddings: int -> E, cell: EncoderConfig -> ((E, S) -> (N, S)))
    : (m: Model<E, N, S>)
    ensures m.config == c
    ensures m.linear == Shape(c.vocabSize, c.dModel)
    ensures m.encoder == EncoderConfig(c.dModel, c.numHiddenLayers, c.rescaleLayer)
    ensures m.forward == cell(m.encoder) && m.embed == embeddings
    ensures m.ln == LayerNormConfig(c.dModel, 0.000001)
  {
    var encoder := EncoderConfig(c.dModel, c.numHiddenLayers, c.rescaleLayer);
    Model(c, embeddings, encoder, cell(encoder), LayerNormConfig(c.dModel, 0.000001),
          Shape(c.vocabSize, c.dModel))
  }

  /** One application of the recurrent cell to embedding `e`, fed with the
      state of `acc`. */
  function Step<E, N, S>(forward: (E, S) -> (N, S), acc: Encoded<N, S>, e: E): (r: Encoded<N, S>)
    ensures r.node.Some?
  {
    var (x, s) := forward(e, acc.state);
    Encoded(Some(x), s)
  }

  /** Left fold of the cell over `es`, starting from `acc`. */
  function Fold<E, N, S>(forward: (E, S) -> (N, S), es: seq<E>, acc: Encoded<N, S>): Encoded<N, S>
    decreases |es|
  {
    if es == [] then acc else Fold(forward, es[1..], Step(forward, acc, es[0]))
  }

  /** The embeddings of a context, token by token. */
  function EmbedAll<E, N, S>(m: Model<E, N, S>, context: seq<int>): (es: seq<E>)
    ensures |es| == |context|
    ensures forall i :: 0 <= i < |context| ==> es[i] == m.embed(context[i])
  {
    seq(|context|, i requires 0 <= i < |context| => m.embed(context[i]))
  }

  /** What `Encode` computes. With `encodeFullSequence` the cell is folded
      over the whole embedded context (an empty context gives a nil node and
      the state unchanged); otherwise it is applied once, to the last token,
      and an empty context is a run-time panic in the source. */
  function Encoding<E, N, S>(m: Model<E, N, S>, context: seq<int>, s: S, encodeFullSequence: bool)
    : (r: Encoded<N, S>)
    requires encodeFullSequence || |context| > 0
    ensures encodeFullSequence && context == [] ==> r == Encoded(None, s)
    ensures !encodeFullSequence ==> r.node.Some?
  {
    if encodeFullSequence then Fold(m.forward, EmbedAll(m, context), Encoded(None, s))
    else
      var x := EmbedAll(m, context[|context| - 1..])[0];
      Step(m.forward, Encoded(None, s), x)
  }

  /** Folding over one more embedding is one more cell step on the state
      already reached. */
  lemma {:induction false} FoldSnoc<E, N, S>(forward: (E, S) -> (N, S), es: seq<E>, e: E, acc: Encoded<N, S>)
    ensures Fold(forward, es + [e], acc) == Step(forward, Fold(forward, es, acc), e)
    decreases |es|
  {
    if es == [] {
      assert [] + [e] == [e];
    } else {
      assert (es + [e])[1..] == es[1..] + [e];
      FoldSnoc(forward, es[1..], e, Step(forward, acc, es[0]));
    }
  }

  /** `Model.Encode`: the loop over the embeddings reassigns the node and
      the state; the single-token branch applies the cell once. */
  method Encode<E, N, S>(m: Model<E, N, S>, context: seq<int>, s: S, encodeFullSequence: bool)
    returns (x: Option<N>, s': S)
    requires encodeFullSequence || |context| > 0
    ensures Encoded(x, s') == Encoding(m, context, s, encodeFullSequence)
  {
    if encodeFullSequence {
      var encoded := EmbedAll(m, context);
      x, s' := None, s;
      for i := 0 to |encoded|
        invariant Encoded(x, s') == Fold(m.forward, encoded[..i], Encoded(None, s))
      {
        assert encoded[..i + 1] == encoded[..i] + [encoded[i]];
        FoldSnoc(m.forward, encoded[..i], encoded[i], Encoded(None, s));
        var r := m.forward(encoded[i], s');
        x, s' := Some(r.0), r.1;
      }
      assert encoded[..|encoded|] == encoded;
      return;
    }
    var e := EmbedAll(m, context[|context| - 1..])[0];
    var r := m.forward(e, s);
    x, s' := Some(r.0), r.1;
  }

  /** A full encode of a non-empty context returns the node of its last
      cell step, so the node is never nil. */
  lemma {:induction false} FoldNode<E, N, S>(forward: (E, S) -> (N, S), es: seq<E>, acc: Encoded<N, S>)
    requires es != [] || acc.node.Some?
    ensures Fold(forward, es, acc).node.Some?
    decreases |es|
  {
    if es != [] {
      FoldNode(forward, es[1..], Step(forward, acc, es[0]));
    }
  }

  lemma FullEncodeNode<E, N, S>(m: Model<E, N, S>, context: seq<int>, s: S)
    requires context != []
    ensures Encoding(m, context, s, true).node.Some?
    ensures var n := |context|;
            Encoding(m, context, s, true).node
            == Some(m.forward(m.embed(context[n - 1]), Encoding(m, context[..n - 1], s, true).state).0)
  {
    FoldNode(m.forward, EmbedAll(m, context), Encoded(None, s));
    var n := |context|;
    assert context[..n - 1] + [context[n - 1]] == context;
    IncrementalEncode(m, context[..n - 1], context[n - 1], s);
  }

  /** The single-token encode reads only the last token: what came before
      it does not matter. */
  lemma StepIgnoresHistory<E, N, S>(m: Model<E, N, S>, c1: seq<int>, c2: seq<int>, s: S)
    requires c1 != [] && c2 != [] && c1[|c1| - 1] == c2[|c2| - 1]
    ensures Encoding(m, c1, s, false) == Encoding(m, c2, s, false)
  {
  }

  /** Incremental consistency: full-encoding a context extended by one
      token equals single-token-encoding that token from the state of the
      full encode of the shorter context. */
  lemma IncrementalEncode<E, N, S>(m: Model<E, N, S>, context: seq<int>, t: int, s: S)
    ensures Encoding(m, context + [t], s, true)
            == Encoding(m, context + [t], Encoding(m, context, s, true).state, false)
  {
    var ctx := context + [t];
    assert EmbedAll(m, ctx) == EmbedAll(m, context) + [m.embed(t)];
    assert EmbedAll(m, ctx[|ctx| - 1..])[0] == m.embed(t);
    FoldSnoc(m.forward, EmbedAll(m, context), m.embed(t), Encoded(None, s));
  }

  /** On a one-token context both modes agree. */
  lemma SingleTokenModesAgree<E, N, S>(m: Model<E, N, S>, t: int, s: S)
    ensures Encoding(m, [t], s, true) == Encoding(m, [t], s, false)
  {
    IncrementalEncode(m, [], t, s);
    assert [] + [t] == [t];
  }

  /** The state after encoding `context` and then single-token-encoding each
      token of `generated` as it is appended to the context. */
  function Extend<E, N, S>(m: Model<E, N, S>, context: seq<int>, generated: seq<int>, enc: Encoded<N, S>)
    : Encoded<N, S>
    decreases |generated|
  {
    if generated == [] then enc
    else
      var context' := context + [generated[0]];
      Extend(m, context', generated[1..], Encoding(m, context', enc.state, false))
  }

  /** One full encode of the prompt followed by one cell step per appended
      token gives exactly the full encode of the whole context: the state
      carried between steps summarises everything encoded so far. */
  lemma {:induction false} ExtendMatchesFull<E, N, S>(m: Model<E, N, S>, prompt: seq<int>, generated: seq<int>, s: S)
    ensures Extend(m, prompt, generated, Encoding(m, prompt, s, true))
            == Encoding(m, prompt + generated, s, true)
    decreases |generated|
  {
    if generated == [] {
      assert prompt + generated == prompt;
    } else {
      var prompt' := prompt + [generated[0]];
      IncrementalEncode(m, prompt, generated[0], s);
      ExtendMatchesFull(m, prompt', generated[1..], s);
      assert prompt' + generated[1..] == prompt + generated;
    }
  }
}
