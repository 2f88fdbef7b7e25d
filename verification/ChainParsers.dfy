/** First-success and pipeline parsers, nested in one another at will. */
module ChainParsers {

  type Bytes = seq<bv8>

  datatype Document = Document(
    content: string, images: map<string, string>, metadata: map<string, string>, chunks: seq<string>)

  datatype Result<+T> = Ok(value: T) | Raised

  datatype Parser = Leaf(id: int) | First(parts: seq<Parser>) | Pipeline(parts: seq<Parser>)

  /** What the elementary parsers do, and how text becomes bytes again. */
  datatype Env = Env(run: (int, Bytes) -> Result<Document>, encode: string -> Bytes)

  const EMPTY := Document("", map[], map[], [])

  predicate IsValid(d: Document) { d.content != "" }

  /** What a pipeline carries from stage to stage. */
  datatype Carry = Carry(content: Bytes, document: Document, images: map<string, string>, metadata: map<string, string>)

  function Parse(p: Parser, content: Bytes, env: Env): Result<Document>
    decreases p, 1
  {
    match p
    case Leaf(id) => env.run(id, content)
    case First(parts) => Ok(FirstOf(parts, content, env))
    case Pipeline(parts) =>
      match Stages(parts, Carry(content, EMPTY, map[], map[]), env)
      case Raised => Raised
      case Ok(c) => Ok(Finish(c))
  }

  function FirstOf(parts: seq<Parser>, content: Bytes, env: Env): Document
    decreases parts, 0
  {
    if parts == [] then EMPTY else
      match Parse(parts[0], content, env)
      case Ok(d) => if IsValid(d) then d else FirstOf(parts[1..], content, env)
      case Raised => FirstOf(parts[1..], content, env)
  }

  function Stages(parts: seq<Parser>, c: Carry, env: Env): Result<Carry>
    decreases parts, 0
  {
    if parts == [] then Ok(c) else
      match Parse(parts[0], c.content, env)
      case Raised => Raised
      case Ok(d) =>
        Stages(parts[1..], Carry(env.encode(d.content), d, c.images + d.images, c.metadata + d.metadata), env)
  }

  /** The accumulated images and metadata are merged into the last document. */
  function Finish(c: Carry): Document {
    c.document.(images := c.document.images + c.images, metadata := c.document.metadata + c.metadata)
  }

  // ----- the loops

  method Run(p: Parser, content: Bytes, env: Env) returns (r: Result<Document>)
    ensures r == Parse(p, content, env)
    decreases p
  {
    match p
    case Leaf(id) =>
      r := env.run(id, content);
    case First(parts) =>
      assert parts[0..] == parts;
      for i := 0 to |parts|
        invariant FirstOf(parts, content, env) == FirstOf(parts[i..], content, env)
      {
        assert parts[i..][1..] == parts[i + 1..];
        var document := Run(parts[i], content, env);
        if document.Ok? && IsValid(document.value) {
          return document;
        }
      }
      r := Ok(EMPTY);
    case Pipeline(parts) =>
      var input := content;
      var images, metadata := map[], map[];
      var document := EMPTY;
      assert parts[0..] == parts;
      ghost var whole := Stages(parts, Carry(content, EMPTY, map[], map[]), env);
      for i := 0 to |parts|
        invariant whole == Stages(parts[i..], Carry(input, document, images, metadata), env)
      {
        assert parts[i..][1..] == parts[i + 1..];
        var out := Run(parts[i], input, env);
        if out.Raised? {
          return Raised;
        }
        document := out.value;
        input := env.encode(document.content);
        images := images + document.images;
        metadata := metadata + document.metadata;
      }
      r := Ok(document.(images := document.images + images, metadata := document.metadata + metadata));
  }

  // ----- stages one after the other

  lemma {:induction false} StagesAppend(a: seq<Parser>, b: seq<Parser>, c: Carry, env: Env)
    ensures Stages(a + b, c, env) ==
      match Stages(a, c, env)
      case Raised => Raised
      case Ok(mid) => Stages(b, mid, env)
    decreases a
  {
    hide Parse;
    if a == [] {
      assert a + b == b;
    } else {
      assert (a + b)[1..] == a[1..] + b;
      match Parse(a[0], c.content, env)
      case Raised =>
      case Ok(d) =>
        StagesAppend(a[1..], b, Carry(env.encode(d.content), d, c.images + d.images, c.metadata + d.metadata), env);
    }
  }

  /** The same stages started with nothing accumulated. */
  function Bare(c: Carry): Carry {
    Carry(c.content, EMPTY, map[], map[])
  }

  /** What was accumulated before a run of stages lies under what they accumulate. */
  function Onto(c: Carry, done: Carry): Carry {
    done.(images := c.images + done.images, metadata := c.metadata + done.metadata)
  }

  lemma {:induction false} StagesShift(parts: seq<Parser>, c: Carry, base: Carry, env: Env)
    requires parts != []
    ensures Stages(parts, Carry(c.content, c.document, base.images + c.images, base.metadata + c.metadata), env) ==
      match Stages(parts, c, env)
      case Raised => Raised
      case Ok(done) => Ok(Onto(base, done))
    ensures forall d :: Stages(parts, c.(document := d), env) == Stages(parts, c, env)
    decreases parts
  {
    hide Parse;
    match Parse(parts[0], c.content, env)
    case Raised =>
    case Ok(d) =>
      var next := Carry(env.encode(d.content), d, c.images + d.images, c.metadata + d.metadata);
      assert (base.images + c.images) + d.images == base.images + (c.images + d.images);
      assert (base.metadata + c.metadata) + d.metadata == base.metadata + (c.metadata + d.metadata);
      if |parts| > 1 {
        StagesShift(parts[1..], next, base, env);
      } else {
        assert parts[1..] == [];
      }
  }

  /** The last document's own images and metadata are part of what was accumulated. */
  predicate Covered(c: Carry) {
    && c.document.images + c.images == c.images
    && c.document.metadata + c.metadata == c.metadata
  }

  lemma {:induction false} StagesCovered(parts: seq<Parser>, c: Carry, env: Env)
    requires Covered(c)
    ensures var r := Stages(parts, c, env); r.Ok? ==> Covered(r.value)
    decreases parts
  {
    hide Parse;
    if parts != [] {
      match Parse(parts[0], c.content, env)
      case Raised =>
      case Ok(d) =>
        StagesCovered(parts[1..], Carry(env.encode(d.content), d, c.images + d.images, c.metadata + d.metadata), env);
    }
  }

  lemma {:induction false} StagesContent(parts: seq<Parser>, c: Carry, env: Env)
    requires parts != []
    ensures var r := Stages(parts, c, env); r.Ok? ==> r.value.content == env.encode(r.value.document.content)
    decreases parts
  {
    hide Parse;
    match Parse(parts[0], c.content, env)
    case Raised =>
    case Ok(d) =>
      var next := Carry(env.encode(d.content), d, c.images + d.images, c.metadata + d.metadata);
      if |parts| > 1 {
        StagesContent(parts[1..], next, env);
      }
  }

  /** A non-empty pipeline used as a stage behaves as its own stages in its place. */
  lemma {:induction false} PipelineStage(qs: seq<Parser>, rest: seq<Parser>, c: Carry, env: Env)
    requires qs != []
    ensures var nested, flat := Stages([Pipeline(qs)] + rest, c, env), Stages(qs + rest, c, env);
      && (nested.Raised? <==> flat.Raised?)
      && (nested.Ok? ==> Finish(nested.value) == Finish(flat.value))
  {
    StagesAppend([Pipeline(qs)], rest, c, env);
    StagesAppend(qs, rest, c, env);
    var bare := Stages(qs, Bare(c), env);
    StagesCovered(qs, Bare(c), env);
    StagesContent(qs, Bare(c), env);
    StagesShift(qs, Bare(c), c, env);
    hide Stages;
    assert c.images + map[] == c.images && c.metadata + map[] == c.metadata;
    assert Stages(qs, Carry(c.content, EMPTY, c.images, c.metadata).(document := c.document), env) == Stages(qs, c, env) by {
      StagesShift(qs, Carry(c.content, EMPTY, c.images, c.metadata), c, env);
    }
    if bare.Ok? {
      var d := Finish(bare.value);
      var a := Carry(env.encode(d.content), d, c.images + d.images, c.metadata + d.metadata);
      var b := Onto(c, bare.value);
      assert d.images == bare.value.images && d.metadata == bare.value.metadata;
      FinishOnto(c, bare.value);
    }
  }

  lemma {:induction false} FinishOnto(c: Carry, done: Carry)
    requires Covered(done)
    ensures var d := Finish(done);
      Finish(Carry(done.content, d, c.images + d.images, c.metadata + d.metadata)) == Finish(Onto(c, done))
  {
  }

  // ----- what a first-success parser returns

  /** A part that gives way to the next: it raises, or finds no content. */
  predicate GivesWay(p: Parser, content: Bytes, env: Env) {
    match Parse(p, content, env)
    case Raised => true
    case Ok(d) => d.content == ""
  }

  /** The document is that of the first part that does not give way, whatever the others do; an empty one if there is none. */
  lemma {:induction false} FirstIs(parts: seq<Parser>, content: Bytes, env: Env, k: nat)
    requires k <= |parts| && forall j :: 0 <= j < k ==> GivesWay(parts[j], content, env)
    requires k < |parts| ==> !GivesWay(parts[k], content, env)
    ensures Parse(First(parts), content, env)
         == if k < |parts| then Parse(parts[k], content, env) else Ok(Document("", map[], map[], []))
    decreases k
  {
    assert Parse(First(parts), content, env) == Ok(FirstOf(parts, content, env));
    FirstFrom(parts, content, env, k);
  }

  lemma {:induction false} FirstFrom(parts: seq<Parser>, content: Bytes, env: Env, k: nat)
    requires k <= |parts| && forall j :: 0 <= j < k ==> GivesWay(parts[j], content, env)
    requires k < |parts| ==> !GivesWay(parts[k], content, env)
    ensures if k < |parts| then Parse(parts[k], content, env) == Ok(FirstOf(parts, content, env))
      else FirstOf(parts, content, env) == EMPTY
    decreases k
  {
    hide Parse;
    if k > 0 {
      assert GivesWay(parts[0], content, env);
      FirstFrom(parts[1..], content, env, k - 1);
    }
  }

  // ----- flattening

  /** Members of `p` when it is spliced into a first-success parser. */
  function AsFirst(p: Parser): seq<Parser> {
    if p.First? then p.parts else [p]
  }

  /** Members of `p` when it is spliced into a pipeline; an empty pipeline is kept as a stage. */
  function AsStages(p: Parser): seq<Parser> {
    if p.Pipeline? && p.parts != [] then p.parts else [p]
  }

  function Flatten(p: Parser): Parser
    decreases p, 1
  {
    match p
    case Leaf(_) => p
    case First(parts) => First(FlattenFirst(parts))
    case Pipeline(parts) => Pipeline(FlattenStages(parts))
  }

  function FlattenFirst(parts: seq<Parser>): seq<Parser>
    decreases parts, 0
  {
    if parts == [] then [] else AsFirst(Flatten(parts[0])) + FlattenFirst(parts[1..])
  }

  function FlattenStages(parts: seq<Parser>): seq<Parser>
    decreases parts, 0
  {
    if parts == [] then [] else AsStages(Flatten(parts[0])) + FlattenStages(parts[1..])
  }

  lemma {:induction false} FirstAppend(a: seq<Parser>, b: seq<Parser>, content: Bytes, env: Env)
    ensures FirstOf(a + b, content, env) ==
      var d := FirstOf(a, content, env); if IsValid(d) then d else FirstOf(b, content, env)
    decreases a
  {
    hide Parse;
    if a == [] {
      assert a + b == b;
    } else {
      assert (a + b)[1..] == a[1..] + b;
      FirstAppend(a[1..], b, content, env);
    }
  }

  /** An invalid outcome of a first-success parser is the empty document. */
  lemma {:induction false} FirstOne(p: Parser, content: Bytes, env: Env)
    ensures FirstOf([p], content, env) ==
      match Parse(p, content, env)
      case Ok(d) => if IsValid(d) then d else EMPTY
      case Raised => EMPTY
  {
    hide Parse;
    assert [p][1..] == [];
  }

  lemma {:induction false} FirstSplice(p: Parser, q: Parser, content: Bytes, env: Env)
    requires Parse(p, content, env) == Parse(q, content, env)
    ensures FirstOf(AsFirst(q), content, env) == FirstOf([p], content, env)
  {
    FirstOne(p, content, env);
    FirstOne(q, content, env);
    if q.First? {
      FirstValid(q.parts, content, env);
      assert Parse(q, content, env) == Ok(FirstOf(q.parts, content, env));
    }
  }

  lemma {:induction false} FirstValid(parts: seq<Parser>, content: Bytes, env: Env)
    ensures var d := FirstOf(parts, content, env); IsValid(d) || d == EMPTY
    decreases parts
  {
    hide Parse;
    if parts != [] {
      FirstValid(parts[1..], content, env);
    }
  }

  /** Flattening any nest of parsers, however deep, changes no result: content, images, metadata, chunks or exception. */
  lemma {:induction false} FlattenPreserves(p: Parser, content: Bytes, env: Env)
    ensures Parse(Flatten(p), content, env) == Parse(p, content, env)
    decreases p, 1
  {
    match p
    case Leaf(_) =>
    case First(parts) => FlattenFirstPreserves(parts, content, env);
    case Pipeline(parts) => FlattenStagesPreserves(parts, Carry(content, EMPTY, map[], map[]), env);
  }

  lemma {:induction false} FlattenFirstPreserves(parts: seq<Parser>, content: Bytes, env: Env)
    ensures FirstOf(FlattenFirst(parts), content, env) == FirstOf(parts, content, env)
    decreases parts, 0
  {
    if parts != [] {
      var q, rest := Flatten(parts[0]), FlattenFirst(parts[1..]);
      FlattenPreserves(parts[0], content, env);
      FlattenFirstPreserves(parts[1..], content, env);
      FirstAppend(AsFirst(q), rest, content, env);
      FirstSplice(parts[0], q, content, env);
      assert parts == [parts[0]] + parts[1..];
      FirstAppend([parts[0]], parts[1..], content, env);
      hide FirstOf, Parse;
    }
  }

  /** The two stage lists may carry different intermediate documents but finish alike. */
  lemma {:induction false} FlattenStagesPreserves(parts: seq<Parser>, c: Carry, env: Env)
    ensures var flat, nested := Stages(FlattenStages(parts), c, env), Stages(parts, c, env);
      && (flat.Raised? <==> nested.Raised?)
      && (flat.Ok? ==> Finish(flat.value) == Finish(nested.value))
    decreases parts, 0
  {
    if parts != [] {
      var q, rest := Flatten(parts[0]), FlattenStages(parts[1..]);
      FlattenPreserves(parts[0], c.content, env);
      assert parts == [parts[0]] + parts[1..];
      StagesAppend([parts[0]], parts[1..], c, env);
      StagesAppend([q], rest, c, env);
      if q.Pipeline? && q.parts != [] {
        PipelineStage(q.parts, rest, c, env);
      }
      if Parse(parts[0], c.content, env).Ok? {
        var d := Parse(parts[0], c.content, env).value;
        FlattenStagesPreserves(parts[1..], Carry(env.encode(d.content), d, c.images + d.images, c.metadata + d.metadata), env);
      }
      hide Stages, Parse, Finish;
    }
  }

  /** No first-success parser stands directly in another, and no pipeline with stages directly in another. */
  predicate IsFlat(p: Parser)
    decreases p
  {
    match p
    case Leaf(_) => true
    case First(parts) => forall k :: 0 <= k < |parts| ==> !parts[k].First? && IsFlat(parts[k])
    case Pipeline(parts) =>
      forall k :: 0 <= k < |parts| ==> !(parts[k].Pipeline? && parts[k].parts != []) && IsFlat(parts[k])
  }

  /** Flattening leaves no such nest. */
  lemma {:induction false} FlattenIsFlat(p: Parser)
    ensures IsFlat(Flatten(p))
    decreases p, 1
  {
    match p
    case Leaf(_) =>
    case First(parts) => FlattenFirstIsFlat(parts);
    case Pipeline(parts) => FlattenStagesIsFlat(parts);
  }

  lemma {:induction false} FlattenFirstIsFlat(parts: seq<Parser>)
    ensures IsFlat(First(FlattenFirst(parts)))
    decreases parts, 0
  {
    if parts != [] {
      FlattenIsFlat(parts[0]);
      FlattenFirstIsFlat(parts[1..]);
    }
  }

  lemma {:induction false} FlattenStagesIsFlat(parts: seq<Parser>)
    ensures IsFlat(Pipeline(FlattenStages(parts)))
    decreases parts, 0
  {
    if parts != [] {
      FlattenIsFlat(parts[0]);
      FlattenStagesIsFlat(parts[1..]);
    }
  }

  // ----- what a pipeline returns

  /** Documents produced by the stages, in order, when none raises. */
  function StageDocs(parts: seq<Parser>, content: Bytes, env: Env): seq<Document>
    decreases parts
  {
    if parts == [] then [] else
      match Parse(parts[0], content, env)
      case Raised => []
      case Ok(d) => [d] + StageDocs(parts[1..], env.encode(d.content), env)
  }

  /** The images as later stages overwrite earlier ones. */
  function ImagesOver(under: map<string, string>, docs: seq<Document>): map<string, string>
    decreases docs
  {
    if docs == [] then under else ImagesOver(under + docs[0].images, docs[1..])
  }

  function MetadataOver(under: map<string, string>, docs: seq<Document>): map<string, string>
    decreases docs
  {
    if docs == [] then under else MetadataOver(under + docs[0].metadata, docs[1..])
  }

  /** Whatever a later stage says wins, and no key of any stage is lost. */
  lemma {:induction false} LastWriterWins(under: map<string, string>, docs: seq<Document>, key: string)
    ensures var all := ImagesOver(under, docs);
      && (key in all <==> key in under || exists i :: 0 <= i < |docs| && key in docs[i].images)
      && (forall i :: 0 <= i < |docs| && key in docs[i].images && (forall j :: i < j < |docs| ==> key !in docs[j].images)
            ==> key in all && all[key] == docs[i].images[key])
      && (key in under && (forall j :: 0 <= j < |docs| ==> key !in docs[j].images) ==> key in all && all[key] == under[key])
    decreases docs
  {
    if docs != [] {
      var u := under + docs[0].images;
      LastWriterWins(u, docs[1..], key);
      var rest := docs[1..];
      assert forall i :: 0 <= i < |rest| ==> rest[i] == docs[i + 1];
      assert forall i :: 1 <= i < |docs| ==> docs[i] == rest[i - 1];
    }
  }

  lemma {:induction false} StagesAccumulate(parts: seq<Parser>, c: Carry, env: Env)
    ensures var r := Stages(parts, c, env);
      r.Ok? ==>
        var docs := StageDocs(parts, c.content, env);
        && |docs| == |parts|
        && r.value.images == ImagesOver(c.images, docs)
        && r.value.metadata == MetadataOver(c.metadata, docs)
        && r.value.document == (if docs == [] then c.document else docs[|docs| - 1])
    decreases parts
  {
    hide Parse;
    if parts != [] {
      match Parse(parts[0], c.content, env)
      case Raised =>
      case Ok(d) =>
        StagesAccumulate(parts[1..], Carry(env.encode(d.content), d, c.images + d.images, c.metadata + d.metadata), env);
        assert ([d] + StageDocs(parts[1..], env.encode(d.content), env))[1..] == StageDocs(parts[1..], env.encode(d.content), env);
    }
  }

  /** The document with its metadata in the place of its images. */
  function MetadataFirst(d: Document): Document { d.(images := d.metadata) }

  function AllMetadataFirst(docs: seq<Document>): seq<Document> {
    seq(|docs|, i requires 0 <= i < |docs| => MetadataFirst(docs[i]))
  }

  /** Metadata accumulate as images do. */
  lemma {:induction false} MetadataLikewise(under: map<string, string>, docs: seq<Document>)
    ensures MetadataOver(under, docs) == ImagesOver(under, AllMetadataFirst(docs))
    decreases docs
  {
    if docs != [] {
      MetadataLikewise(under + docs[0].metadata, docs[1..]);
      assert AllMetadataFirst(docs)[1..] == AllMetadataFirst(docs[1..]);
    }
  }

  lemma {:induction false} LastMetadataWins(under: map<string, string>, docs: seq<Document>, key: string, i: nat)
    requires i < |docs| && key in docs[i].metadata && forall j :: i < j < |docs| ==> key !in docs[j].metadata
    ensures key in MetadataOver(under, docs) && MetadataOver(under, docs)[key] == docs[i].metadata[key]
  {
    MetadataLikewise(under, docs);
    LastWriterWins(under, AllMetadataFirst(docs), key);
    hide MetadataOver, ImagesOver;
    assert AllMetadataFirst(docs)[i].images == docs[i].metadata;
  }

  function StageInput(docs: seq<Document>, content: Bytes, env: Env, k: nat): Bytes
    requires k <= |docs|
  {
    if k == 0 then content else env.encode(docs[k - 1].content)
  }

  /** Every stage reads the content of the one before it, and the pipeline raises exactly when a stage does. */
  lemma {:induction false} StagesRead(parts: seq<Parser>, content: Bytes, env: Env)
    ensures var docs := StageDocs(parts, content, env);
      && |docs| <= |parts|
      && (forall k :: 0 <= k < |docs| ==> Parse(parts[k], StageInput(docs, content, env, k), env) == Ok(docs[k]))
      && (|docs| < |parts| ==> Parse(parts[|docs|], StageInput(docs, content, env, |docs|), env).Raised?)
    decreases parts
  {
    hide Parse;
    if parts != [] {
      match Parse(parts[0], content, env)
      case Raised =>
      case Ok(d) =>
        StagesRead(parts[1..], env.encode(d.content), env);
        StageInputs(d, StageDocs(parts[1..], env.encode(d.content), env), content, env);
    }
  }

  lemma StageInputs(d: Document, rest: seq<Document>, content: Bytes, env: Env)
    ensures var docs := [d] + rest;
      && StageInput(docs, content, env, 0) == content
      && forall k :: 0 < k <= |docs| ==> StageInput(docs, content, env, k) == StageInput(rest, env.encode(d.content), env, k - 1)
  {
  }

  lemma {:induction false} PipelineRaisesIff(parts: seq<Parser>, content: Bytes, env: Env)
    ensures Parse(Pipeline(parts), content, env).Raised? <==> |StageDocs(parts, content, env)| < |parts|
  {
    RaisesIff(parts, Carry(content, EMPTY, map[], map[]), env);
  }

  lemma {:induction false} RaisesIff(parts: seq<Parser>, c: Carry, env: Env)
    ensures Stages(parts, c, env).Raised? <==> |StageDocs(parts, c.content, env)| < |parts|
    decreases parts
  {
    hide Parse;
    if parts != [] {
      match Parse(parts[0], c.content, env)
      case Raised =>
      case Ok(d) =>
        RaisesIff(parts[1..], Carry(env.encode(d.content), d, c.images + d.images, c.metadata + d.metadata), env);
    }
  }

  /** A pipeline returns the last stage's content with the images and metadata of all stages, later stages winning. */
  lemma {:induction false} PipelineResult(parts: seq<Parser>, content: Bytes, env: Env)
    requires parts != [] && Parse(Pipeline(parts), content, env).Ok?
    ensures var r, docs := Parse(Pipeline(parts), content, env).value, StageDocs(parts, content, env);
      && |docs| == |parts|
      && r.content == docs[|docs| - 1].content && r.chunks == docs[|docs| - 1].chunks
      && r.images == ImagesOver(map[], docs)
      && r.metadata == MetadataOver(map[], docs)
  {
    var c := Carry(content, EMPTY, map[], map[]);
    StagesAccumulate(parts, c, env);
    StagesCovered(parts, c, env);
  }
}
