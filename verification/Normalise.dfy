/**
  Cache keys for prompts and embeddings: a request is written out as named,
  length-prefixed fields and counts.  The bytes can be read back, so two
  requests share them exactly when they ask for the same thing.
 */
module Normalise {
  import opened Base
  import opened Wire
  import opened Json

  datatype Message = Message(role: Text, content: Text, name: Option<Text>)

  /** A sorted map is the list of its fields in key order. */
  datatype Prompt = Prompt(
    provider: Text,
    model: Text,
    modelVersion: Option<Text>,
    messages: seq<Message>,
    systemPrompt: Option<Text>,
    toolSchema: Option<Value>,
    sampling: seq<Field>,
    outputFormat: Option<Text>,
    retrievalHash: Option<Text>,
    applicationNamespace: Text)

  datatype Embedding = Embedding(
    model: Text,
    modelVersion: Option<Text>,
    contentHash: Text,
    settings: seq<Field>,
    chunking: Text,
    dimensions: U32,
    applicationNamespace: Text)

  // ----- What is written -----

  datatype Token = Named(name: string, value: Bytes) | Count(n: nat)

  function TokenBytes(t: Token): Bytes {
    match t
    case Named(name, value) => BE(8, |Ascii(name)|) + Ascii(name) + BE(8, |value|) + value
    case Count(n) => BE(8, n)
  }

  function Render(tokens: seq<Token>): Bytes {
    if tokens == [] then [] else TokenBytes(tokens[0]) + Render(tokens[1..])
  }

  const NONE: Text := Ascii("<none>")

  function TextOrNone(o: Option<Text>): Text {
    if o.Some? then o.value else NONE
  }

  function JsonOrNone(o: Option<Value>): Text {
    if o.Some? then Canonical(o.value) else NONE
  }

  function Pairs(key: string, value: string, m: seq<Field>): seq<Token> {
    if m == [] then []
    else [Named(key, m[0].key), Named(value, Canonical(m[0].value))] + Pairs(key, value, m[1..])
  }

  function MessageTokens(messages: seq<Message>): seq<Token> {
    if messages == [] then []
    else
      var m := messages[0];
      [Named("message.role", m.role), Named("message.name", TextOrNone(m.name)), Named("message.content", m.content)]
      + MessageTokens(messages[1..])
  }

  function PromptHead(p: Prompt): seq<Token> {
    [ Named("version", Ascii("cachebox.ai.prompt.v1")), Named("provider", p.provider), Named("model", p.model),
      Named("model_version", TextOrNone(p.modelVersion)), Named("system_prompt", TextOrNone(p.systemPrompt)),
      Named("tool_schema", JsonOrNone(p.toolSchema)), Named("sampling_parameters", Ascii("map")), Count(|p.sampling|)]
  }

  function PromptMiddle(p: Prompt): seq<Token> {
    [ Named("output_format", TextOrNone(p.outputFormat)), Named("retrieval_context_hash", TextOrNone(p.retrievalHash)),
      Named("application_namespace", p.applicationNamespace), Count(|p.messages|)]
  }

  function PromptTokens(p: Prompt): seq<Token> {
    PromptHead(p)
    + (Pairs("sampling.name", "sampling.value", p.sampling) + (PromptMiddle(p) + MessageTokens(p.messages)))
  }

  function EmbeddingHead(e: Embedding): seq<Token> {
    [ Named("version", Ascii("cachebox.ai.embedding.v1")), Named("model", e.model),
      Named("model_version", TextOrNone(e.modelVersion)), Named("input_content_hash", e.contentHash),
      Named("normalization_settings", Ascii("map")), Count(|e.settings|)]
  }

  function EmbeddingTail(e: Embedding): seq<Token> {
    [Named("chunking_strategy", e.chunking), Count(e.dimensions),
     Named("application_namespace", e.applicationNamespace)]
  }

  function EmbeddingTokens(e: Embedding): seq<Token> {
    EmbeddingHead(e) + (Pairs("normalization.name", "normalization.value", e.settings) + EmbeddingTail(e))
  }

  function NormalPrompt(p: Prompt): Bytes {
    Render(PromptTokens(p))
  }

  function NormalEmbedding(e: Embedding): Bytes {
    Render(EmbeddingTokens(e))
  }

  // ----- Reading tokens back -----

  predicate SameShape(t: Token, u: Token) {
    match t
    case Named(name, _) => u.Named? && u.name == name
    case Count(_) => u.Count?
  }

  /** Lengths and counts that a `u64` holds. */
  predicate Sized(t: Token) {
    match t
    case Named(_, value) => |value| <= U64_MAX
    case Count(n) => n <= U64_MAX
  }

  lemma NumberFront(a: nat, b: nat, ra: Bytes, rb: Bytes)
    requires a <= U64_MAX && b <= U64_MAX && BE(8, a) + ra == BE(8, b) + rb
    ensures a == b && ra == rb
  {
    hide BE;
    assert (BE(8, a) + ra)[..8] == BE(8, a) && (BE(8, b) + rb)[..8] == BE(8, b);
    Widths();
    NumberRoundTrip(8, a);
    NumberRoundTrip(8, b);
    Cancel(BE(8, a), ra, rb);
  }

  lemma TokenFront(t: Token, u: Token, ra: Bytes, rb: Bytes)
    requires SameShape(t, u) && Sized(t) && Sized(u) && TokenBytes(t) + ra == TokenBytes(u) + rb
    ensures t == u && ra == rb
  {
    hide BE, Ascii;
    if t.Count? {
      NumberFront(t.n, u.n, ra, rb);
    } else {
      var x := BE(8, |Ascii(t.name)|) + Ascii(t.name);
      NamedBytes(x, t.value, ra);
      NamedBytes(x, u.value, rb);
      Cancel(x, BE(8, |t.value|) + (t.value + ra), BE(8, |u.value|) + (u.value + rb));
      NumberFront(|t.value|, |u.value|, t.value + ra, u.value + rb);
      assert (t.value + ra)[..|t.value|] == t.value && (u.value + rb)[..|u.value|] == u.value;
      Cancel(t.value, ra, rb);
    }
  }

  lemma NamedBytes(x: Bytes, value: Bytes, rest: Bytes)
    ensures (x + BE(8, |value|) + value) + rest == x + (BE(8, |value|) + (value + rest))
  {
    hide BE;
    Assoc(x + BE(8, |value|), value, rest);
    Assoc(x, BE(8, |value|), value + rest);
  }

  predicate Shaped(x: seq<Token>, y: seq<Token>) {
    |x| == |y| && forall i :: 0 <= i < |x| ==> SameShape(x[i], y[i]) && Sized(x[i]) && Sized(y[i])
  }

  /** Tokens of the same shape are read off the front in one way only. */
  lemma {:induction false} Peel(x: seq<Token>, y: seq<Token>, ta: seq<Token>, tb: seq<Token>)
    requires Shaped(x, y) && Render(x + ta) == Render(y + tb)
    ensures x == y && Render(ta) == Render(tb)
  {
    hide TokenBytes;
    if x == [] {
      assert [] + ta == ta && [] + tb == tb;
    } else {
      assert (x + ta)[1..] == x[1..] + ta && (y + tb)[1..] == y[1..] + tb;
      TokenFront(x[0], y[0], Render(x[1..] + ta), Render(y[1..] + tb));
      Peel(x[1..], y[1..], ta, tb);
      assert x == [x[0]] + x[1..] && y == [y[0]] + y[1..];
    }
  }

  // ----- The same request -----

  predicate IsNone(o: Option<Text>) {
    o == None || o == Some(NONE)
  }

  /** `None` and the text `<none>` are not told apart. */
  predicate SameOption(a: Option<Text>, b: Option<Text>) {
    a == b || (IsNone(a) && IsNone(b))
  }

  predicate SameJson(a: Option<Value>, b: Option<Value>) {
    match (a, b)
    case (Some(v), Some(w)) => Same(v, w)
    case _ => a == b
  }

  predicate SameMessage(a: Message, b: Message) {
    a.role == b.role && a.content == b.content && SameOption(a.name, b.name)
  }

  predicate SameMessages(a: seq<Message>, b: seq<Message>) {
    |a| == |b| && forall i :: 0 <= i < |a| ==> SameMessage(a[i], b[i])
  }

  predicate SamePrompt(a: Prompt, b: Prompt) {
    && a.provider == b.provider && a.model == b.model && a.applicationNamespace == b.applicationNamespace
    && SameOption(a.modelVersion, b.modelVersion) && SameOption(a.systemPrompt, b.systemPrompt)
    && SameOption(a.outputFormat, b.outputFormat) && SameOption(a.retrievalHash, b.retrievalHash)
    && SameJson(a.toolSchema, b.toolSchema)
    && Aligned(a.sampling, b.sampling)
    && SameMessages(a.messages, b.messages)
  }

  predicate SameEmbedding(a: Embedding, b: Embedding) {
    && a.model == b.model && a.contentHash == b.contentHash && a.chunking == b.chunking
    && a.dimensions == b.dimensions && a.applicationNamespace == b.applicationNamespace
    && SameOption(a.modelVersion, b.modelVersion)
    && Aligned(a.settings, b.settings)
  }

  // ----- Requests as the program holds them -----

  predicate Held(s: Text) {
    |s| <= U64_MAX
  }

  predicate HeldOption(o: Option<Text>) {
    o.Some? ==> Held(o.value)
  }

  predicate HeldMap(m: seq<Field>) {
    && Sorted(m) && |m| <= U64_MAX && GoodFields(m)
    && forall i :: 0 <= i < |m| ==> Held(m[i].key) && Held(Canonical(m[i].value))
  }

  predicate HeldMessages(messages: seq<Message>) {
    && |messages| <= U64_MAX
    && forall i :: 0 <= i < |messages| ==>
         Held(messages[i].role) && Held(messages[i].content) && HeldOption(messages[i].name)
  }

  predicate HeldPrompt(p: Prompt) {
    && Held(p.provider) && Held(p.model) && Held(p.applicationNamespace)
    && HeldOption(p.modelVersion) && HeldOption(p.systemPrompt)
    && HeldOption(p.outputFormat) && HeldOption(p.retrievalHash)
    && (p.toolSchema.Some? ==> Good(p.toolSchema.value) && Held(Canonical(p.toolSchema.value)))
    && HeldMap(p.sampling)
    && HeldMessages(p.messages)
  }

  predicate HeldEmbedding(e: Embedding) {
    && Held(e.model) && Held(e.contentHash) && Held(e.chunking) && Held(e.applicationNamespace)
    && HeldOption(e.modelVersion)
    && HeldMap(e.settings)
  }

  // ----- Equal fields, equal requests -----

  lemma OptionIff(a: Option<Text>, b: Option<Text>)
    ensures TextOrNone(a) == TextOrNone(b) <==> SameOption(a, b)
  {
  }

  lemma JsonIff(a: Option<Value>, b: Option<Value>)
    requires (a.Some? ==> Good(a.value)) && (b.Some? ==> Good(b.value))
    ensures JsonOrNone(a) == JsonOrNone(b) <==> SameJson(a, b)
  {
    hide Canonical, Same, Good;
    if a.Some? && b.Some? {
      CanonicalIff(a.value, b.value);
    } else if a.Some? {
      NotNone(a.value);
    } else if b.Some? {
      NotNone(b.value);
    }
  }

  lemma NotNone(v: Value)
    requires Good(v)
    ensures Canonical(v) != NONE
  {
    LeadByte(v, []);
    assert Canonical(v) + [] == Canonical(v);
    assert NONE[0] == 60;
  }

  lemma {:induction false} PairsShaped(key: string, value: string, a: seq<Field>, b: seq<Field>)
    requires |a| == |b|
    requires forall i :: 0 <= i < |a| ==> Held(a[i].key) && Held(Canonical(a[i].value))
    requires forall i :: 0 <= i < |b| ==> Held(b[i].key) && Held(Canonical(b[i].value))
    ensures Shaped(Pairs(key, value, a), Pairs(key, value, b))
  {
    hide Canonical;
    if a != [] {
      PairsShaped(key, value, a[1..], b[1..]);
    }
  }

  lemma {:induction false} PairsIff(key: string, value: string, a: seq<Field>, b: seq<Field>)
    requires |a| == |b| && GoodFields(a) && GoodFields(b)
    ensures Pairs(key, value, a) == Pairs(key, value, b) <==> Aligned(a, b)
  {
    hide Canonical, Same, Good;
    if a != [] {
      PairsIff(key, value, a[1..], b[1..]);
      CanonicalIff(a[0].value, b[0].value);
      var x, y := Pairs(key, value, a), Pairs(key, value, b);
      assert x[2..] == Pairs(key, value, a[1..]) && y[2..] == Pairs(key, value, b[1..]);
      assert x == x[..2] + x[2..] && y == y[..2] + y[2..];
      AlignedTail(a, b);
    }
  }

  lemma AlignedTail(a: seq<Field>, b: seq<Field>)
    requires |a| == |b| > 0
    ensures Aligned(a, b) <==> a[0].key == b[0].key && Same(a[0].value, b[0].value) && Aligned(a[1..], b[1..])
  {
    hide Same;
    if a[0].key == b[0].key && Same(a[0].value, b[0].value) && Aligned(a[1..], b[1..]) {
      forall i | 0 <= i < |a|
        ensures a[i].key == b[i].key && Same(a[i].value, b[i].value)
      {
        assert i > 0 ==> a[i] == a[1..][i - 1] && b[i] == b[1..][i - 1];
      }
    }
  }

  lemma {:induction false} MessagesShaped(a: seq<Message>, b: seq<Message>)
    requires |a| == |b| && HeldMessages(a) && HeldMessages(b)
    ensures Shaped(MessageTokens(a), MessageTokens(b))
  {
    if a != [] {
      MessagesShaped(a[1..], b[1..]);
    }
  }

  lemma {:induction false} MessagesIff(a: seq<Message>, b: seq<Message>)
    requires |a| == |b|
    ensures MessageTokens(a) == MessageTokens(b) <==> SameMessages(a, b)
  {
    if a != [] {
      MessagesIff(a[1..], b[1..]);
      OptionIff(a[0].name, b[0].name);
      var x, y := MessageTokens(a), MessageTokens(b);
      assert x[3..] == MessageTokens(a[1..]) && y[3..] == MessageTokens(b[1..]);
      assert x == x[..3] + x[3..] && y == y[..3] + y[3..];
    }
  }

  lemma PromptHeadIff(a: Prompt, b: Prompt)
    requires HeldPrompt(a) && HeldPrompt(b)
    ensures Shaped(PromptHead(a), PromptHead(b))
    ensures PromptHead(a) == PromptHead(b) <==>
              && a.provider == b.provider && a.model == b.model && SameOption(a.modelVersion, b.modelVersion)
              && SameOption(a.systemPrompt, b.systemPrompt) && SameJson(a.toolSchema, b.toolSchema)
              && |a.sampling| == |b.sampling|
  {
    hide SameOption, SameJson, HeldMessages, Canonical, Sorted, GoodFields;
    OptionIff(a.modelVersion, b.modelVersion);
    OptionIff(a.systemPrompt, b.systemPrompt);
    JsonIff(a.toolSchema, b.toolSchema);
  }

  lemma PromptMiddleIff(a: Prompt, b: Prompt)
    requires HeldPrompt(a) && HeldPrompt(b)
    ensures Shaped(PromptMiddle(a), PromptMiddle(b))
    ensures PromptMiddle(a) == PromptMiddle(b) <==>
              && SameOption(a.outputFormat, b.outputFormat) && SameOption(a.retrievalHash, b.retrievalHash)
              && a.applicationNamespace == b.applicationNamespace && |a.messages| == |b.messages|
  {
    hide SameOption, HeldMap, Canonical;
    OptionIff(a.outputFormat, b.outputFormat);
    OptionIff(a.retrievalHash, b.retrievalHash);
  }

  /**
    Two prompts have the same bytes exactly when they are the same up to the
    order of JSON object keys and up to a missing text and the text `<none>`.
   */
  lemma PromptIff(a: Prompt, b: Prompt)
    requires HeldPrompt(a) && HeldPrompt(b)
    ensures NormalPrompt(a) == NormalPrompt(b) <==> SamePrompt(a, b)
  {
    hide PromptHead, PromptMiddle, SameOption, SameJson, Same, Render, Shaped, Canonical;
    PromptHeadIff(a, b);
    PromptMiddleIff(a, b);
    var name, value := "sampling.name", "sampling.value";
    var ma, mb := Pairs(name, value, a.sampling), Pairs(name, value, b.sampling);
    var ra, rb := PromptMiddle(a) + MessageTokens(a.messages), PromptMiddle(b) + MessageTokens(b.messages);
    if NormalPrompt(a) == NormalPrompt(b) {
      Peel(PromptHead(a), PromptHead(b), ma + ra, mb + rb);
      PairsShaped(name, value, a.sampling, b.sampling);
      Peel(ma, mb, ra, rb);
      PairsIff(name, value, a.sampling, b.sampling);
      Peel(PromptMiddle(a), PromptMiddle(b), MessageTokens(a.messages), MessageTokens(b.messages));
      MessagesShaped(a.messages, b.messages);
      assert MessageTokens(a.messages) + [] == MessageTokens(a.messages);
      assert MessageTokens(b.messages) + [] == MessageTokens(b.messages);
      Peel(MessageTokens(a.messages), MessageTokens(b.messages), [], []);
      MessagesIff(a.messages, b.messages);
    }
    if SamePrompt(a, b) {
      PairsIff(name, value, a.sampling, b.sampling);
      MessagesIff(a.messages, b.messages);
    }
  }

  lemma EmbeddingPartsIff(a: Embedding, b: Embedding)
    requires HeldEmbedding(a) && HeldEmbedding(b)
    ensures Shaped(EmbeddingHead(a), EmbeddingHead(b)) && Shaped(EmbeddingTail(a), EmbeddingTail(b))
    ensures EmbeddingHead(a) == EmbeddingHead(b) <==>
              && a.model == b.model && SameOption(a.modelVersion, b.modelVersion)
              && a.contentHash == b.contentHash && |a.settings| == |b.settings|
    ensures EmbeddingTail(a) == EmbeddingTail(b) <==>
              && a.chunking == b.chunking && a.dimensions == b.dimensions
              && a.applicationNamespace == b.applicationNamespace
  {
    hide SameOption, Canonical, Sorted, GoodFields;
    OptionIff(a.modelVersion, b.modelVersion);
  }

  lemma EmbeddingIff(a: Embedding, b: Embedding)
    requires HeldEmbedding(a) && HeldEmbedding(b)
    ensures NormalEmbedding(a) == NormalEmbedding(b) <==> SameEmbedding(a, b)
  {
    hide EmbeddingHead, EmbeddingTail, SameOption, Same, Render, Shaped, Canonical;
    EmbeddingPartsIff(a, b);
    var name, value := "normalization.name", "normalization.value";
    var ma, mb := Pairs(name, value, a.settings), Pairs(name, value, b.settings);
    if NormalEmbedding(a) == NormalEmbedding(b) {
      Peel(EmbeddingHead(a), EmbeddingHead(b), ma + EmbeddingTail(a), mb + EmbeddingTail(b));
      PairsShaped(name, value, a.settings, b.settings);
      Peel(ma, mb, EmbeddingTail(a), EmbeddingTail(b));
      PairsIff(name, value, a.settings, b.settings);
      assert EmbeddingTail(a) + [] == EmbeddingTail(a) && EmbeddingTail(b) + [] == EmbeddingTail(b);
      Peel(EmbeddingTail(a), EmbeddingTail(b), [], []);
    }
    if SameEmbedding(a, b) {
      PairsIff(name, value, a.settings, b.settings);
    }
  }

  /** A prompt and an embedding never share their bytes: the version field comes first and differs. */
  lemma KindsDiffer(p: Prompt, e: Embedding)
    ensures NormalPrompt(p) != NormalEmbedding(e)
  {
    hide TokenBytes, Render;
    VersionFirst(PromptHead(p), PromptTokens(p));
    VersionFirst(EmbeddingHead(e), EmbeddingTokens(e));
    if NormalPrompt(p) == NormalEmbedding(e) {
      var x, y := PromptTokens(p), EmbeddingTokens(e);
      Peel(x[..1], y[..1], x[1..], y[1..]);
    }
  }

  lemma VersionFirst(head: seq<Token>, all: seq<Token>)
    requires head != [] && head <= all
    ensures all[..1] == [head[0]] && all == all[..1] + all[1..]
  {
  }

  /** The one identification beyond key order: a missing text and the text `<none>`. */
  lemma NoneCollides(p: Prompt)
    ensures var q := p.(modelVersion := None);
            var r := p.(modelVersion := Some(NONE));
            q != r && NormalPrompt(q) == NormalPrompt(r)
  {
  }

  // ----- Writing it out -----

  lemma {:induction false} RenderAppend(tokens: seq<Token>, t: Token)
    ensures Render(tokens + [t]) == Render(tokens) + TokenBytes(t)
  {
    hide TokenBytes;
    if tokens == [] {
      assert [t][1..] == [] && TokenBytes(t) + [] == TokenBytes(t) == [] + TokenBytes(t);
    } else {
      assert (tokens + [t])[1..] == tokens[1..] + [t];
      RenderAppend(tokens[1..], t);
      Assoc(TokenBytes(tokens[0]), Render(tokens[1..]), TokenBytes(t));
    }
  }

  /** The byte vector being filled, with a record of what was appended. */
  class Normaliser {
    var out: Bytes
    ghost var tokens: seq<Token>

    ghost predicate Valid()
      reads this
    {
      out == Render(tokens)
    }

    constructor ()
      ensures Valid() && tokens == []
    {
      out, tokens := [], [];
    }

    method AppendU64(n: nat)
      requires Valid()
      modifies this
      ensures Valid() && tokens == old(tokens) + [Count(n)]
    {
      RenderAppend(tokens, Count(n));
      out := out + BE(8, n);
      tokens := tokens + [Count(n)];
    }

    method AppendBytes(name: string, value: Bytes)
      requires Valid()
      modifies this
      ensures Valid() && tokens == old(tokens) + [Named(name, value)]
    {
      hide BE, Ascii;
      RenderAppend(tokens, Named(name, value));
      var field := Ascii(name);
      Appended(out, BE(8, |field|), field, BE(8, |value|), value);
      out := out + BE(8, |field|);
      out := out + field;
      out := out + BE(8, |value|);
      out := out + value;
      tokens := tokens + [Named(name, value)];
    }

    method AppendOptional(name: string, value: Option<Text>)
      requires Valid()
      modifies this
      ensures Valid() && tokens == old(tokens) + [Named(name, TextOrNone(value))]
    {
      if value.Some? {
        AppendBytes(name, value.value);
      } else {
        AppendBytes(name, NONE);
      }
    }

    method AppendJson(name: string, value: Option<Value>)
      requires Valid()
      modifies this
      ensures Valid() && tokens == old(tokens) + [Named(name, JsonOrNone(value))]
    {
      if value.Some? {
        AppendBytes(name, Canonical(value.value));
      } else {
        AppendBytes(name, NONE);
      }
    }

    method AppendJsonMap(name: string, key: string, value: string, m: seq<Field>)
      requires Valid()
      modifies this
      ensures Valid() && tokens == old(tokens) + [Named(name, Ascii("map")), Count(|m|)] + Pairs(key, value, m)
    {
      hide Canonical, Ascii, Render;
      AppendBytes(name, Ascii("map"));
      AppendU64(|m|);
      ghost var before := tokens;
      assert before == old(tokens) + [Named(name, Ascii("map")), Count(|m|)];
      for i := 0 to |m|
        invariant Valid()
        invariant tokens + Pairs(key, value, m[i..]) == before + Pairs(key, value, m)
      {
        assert m[i..][1..] == m[i + 1..];
        AppendBytes(key, m[i].key);
        AppendBytes(value, Canonical(m[i].value));
      }
    }

    method AppendMessages(messages: seq<Message>)
      requires Valid()
      modifies this
      ensures Valid() && tokens == old(tokens) + [Count(|messages|)] + MessageTokens(messages)
    {
      hide Render;
      AppendU64(|messages|);
      ghost var before := tokens;
      for i := 0 to |messages|
        invariant Valid()
        invariant tokens + MessageTokens(messages[i..]) == before + MessageTokens(messages)
      {
        var message := messages[i];
        assert messages[i..][1..] == messages[i + 1..];
        AppendBytes("message.role", message.role);
        AppendOptional("message.name", message.name);
        AppendBytes("message.content", message.content);
      }
    }
  }

  lemma Appended(out: Bytes, a: Bytes, b: Bytes, c: Bytes, d: Bytes)
    ensures out + (a + b + c + d) == out + a + b + c + d
  {
    Assoc(out, a + b + c, d);
    Assoc(out, a + b, c);
    Assoc(out, a, b);
  }

  method AppendPromptHead(out: Normaliser, p: Prompt)
    requires out.Valid() && out.tokens == []
    modifies out
    ensures out.Valid() && out.tokens == PromptHead(p) + Pairs("sampling.name", "sampling.value", p.sampling)
  {
    hide Render, Ascii, Canonical, TextOrNone, JsonOrNone;
    out.AppendBytes("version", Ascii("cachebox.ai.prompt.v1"));
    out.AppendBytes("provider", p.provider);
    out.AppendBytes("model", p.model);
    out.AppendOptional("model_version", p.modelVersion);
    out.AppendOptional("system_prompt", p.systemPrompt);
    out.AppendJson("tool_schema", p.toolSchema);
    out.AppendJsonMap("sampling_parameters", "sampling.name", "sampling.value", p.sampling);
  }

  method NormalizePrompt(p: Prompt) returns (bytes: Bytes)
    ensures bytes == NormalPrompt(p)
  {
    hide Render, Ascii, Canonical, TextOrNone, JsonOrNone, PromptHead, Pairs;
    var out := new Normaliser();
    AppendPromptHead(out, p);
    out.AppendOptional("output_format", p.outputFormat);
    out.AppendOptional("retrieval_context_hash", p.retrievalHash);
    out.AppendBytes("application_namespace", p.applicationNamespace);
    out.AppendMessages(p.messages);
    ghost var pairs := Pairs("sampling.name", "sampling.value", p.sampling);
    assert out.tokens == PromptHead(p) + (pairs + (PromptMiddle(p) + MessageTokens(p.messages)));
    bytes := out.out;
  }

  method NormalizeEmbedding(e: Embedding) returns (bytes: Bytes)
    ensures bytes == NormalEmbedding(e)
  {
    hide Render, Ascii, Canonical, TextOrNone;
    var out := new Normaliser();
    out.AppendBytes("version", Ascii("cachebox.ai.embedding.v1"));
    out.AppendBytes("model", e.model);
    out.AppendOptional("model_version", e.modelVersion);
    out.AppendBytes("input_content_hash", e.contentHash);
    out.AppendJsonMap("normalization_settings", "normalization.name", "normalization.value", e.settings);
    ghost var pairs := Pairs("normalization.name", "normalization.value", e.settings);
    assert out.tokens == EmbeddingHead(e) + pairs;
    out.AppendBytes("chunking_strategy", e.chunking);
    out.AppendU64(e.dimensions);
    out.AppendBytes("application_namespace", e.applicationNamespace);
    assert out.tokens == EmbeddingHead(e) + (pairs + EmbeddingTail(e));
    bytes := out.out;
  }
}
