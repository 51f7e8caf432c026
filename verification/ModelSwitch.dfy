/** Hot switch of the inference model with rollback (gateway_engine/pipeline/stages/InferenceStage.cpp:27-196).
    Files, the RKNN runtime and its answers are parameters; the set of live contexts is a ghost field. */
module ModelSwitch {
  import opened Options
  import opened Sha256
  import W = Sha256Words

  type Content = seq<Byte>

  /** rknn_tensor_attr, as far as it is used: dims always has room for the dimensions read. */
  datatype Attr = Attr(dims: seq<nat>, nDims: nat, nchw: bool, float32: bool)

  predicate WellFormed(a: Attr) {
    |a.dims| >= 4 && a.nDims <= |a.dims|
  }

  /** What opening, reading and initialising a model meets: the bytes in the file, whether all of them could be
      read, the context rknn_init creates, and the answer to each query. */
  datatype World = World(
    file: Option<Content>, complete: bool, context: Option<nat>,
    io: Option<(nat, nat)>, inputs: seq<Option<Attr>>, outputs: seq<Option<Attr>>)

  /** The runtime answers as many queries as it announces. */
  ghost predicate Consistent(w: World) {
    && (w.io.Some? ==> |w.inputs| >= w.io.value.0 && |w.outputs| >= w.io.value.1)
    && (forall a | a in w.inputs && a.Some? :: WellFormed(a.value))
  }

  /** It never hands out 0 or a live context. */
  ghost predicate Sane(w: World, live: map<nat, Content>) {
    Consistent(w) && (w.context.Some? ==> w.context.value != 0 && w.context.value !in live)
  }

  // ---------------------------------------------------------------- specification: all or nothing

  datatype Model = Model(
    ctx: nat, io: (nat, nat), inputs: seq<Attr>, outputs: seq<Attr>, buffer: Content, inputSize: nat, path: string)

  /** sha is the printed hash that the stage uses; the one it is linked with is Sha256Words.Printed. */
  datatype Stage = Stage(model: Model, live: map<nat, Content>, fatals: nat, sha: Content -> string)

  /** A request to switch. The file is read twice: first is what it holds when its hash is taken, if it can be
      opened; world says what it holds when it is loaded. */
  datatype Request = Request(path: string, expected: string, first: Option<Content>, world: World)

  /** sha256_file: empty if the file cannot be opened. */
  function FileHash(sha: Content -> string, file: Option<Content>): string {
    match file
    case None => ""
    case Some(bytes) => sha(bytes)
  }

  predicate HashPasses(sha: Content -> string, r: Request) {
    r.expected == "" || FileHash(sha, r.first) == r.expected
  }

  /** Every step of init_rknn succeeds. */
  predicate Loads(w: World) {
    && w.file.Some? && w.complete && w.context.Some? && w.io.Some?
    && (forall i | 0 <= i < w.io.value.0 && i < |w.inputs| :: w.inputs[i].Some?)
    && (forall i | 0 <= i < w.io.value.1 && i < |w.outputs| :: w.outputs[i].Some?)
  }

  function Values(answers: seq<Option<Attr>>, n: nat): seq<Attr>
    requires n <= |answers| && forall i | 0 <= i < n :: answers[i].Some?
  {
    seq(n, i requires 0 <= i < n => answers[i].value)
  }

  function Product(dims: seq<nat>): nat {
    if dims == [] then 1 else Product(dims[..|dims| - 1]) * dims[|dims| - 1]
  }

  function BufferSize(a: Attr): nat
    requires WellFormed(a)
  {
    Product(a.dims[..a.nDims]) * if a.float32 then 4 else 1
  }

  function Side(a: Attr): nat
    requires WellFormed(a)
  {
    var h := if a.nchw then a.dims[2] else a.dims[1];
    var w := if a.nchw then a.dims[3] else a.dims[2];
    if h > w then h else w
  }

  function Fresh(r: Request): Model
    requires Loads(r.world) && Consistent(r.world)
  {
    var w := r.world;
    var inputs := Values(w.inputs, w.io.value.0);
    Model(w.context.value, w.io.value, inputs, Values(w.outputs, w.io.value.1),
          if inputs == [] then [] else assert w.inputs[0] in w.inputs; seq(BufferSize(inputs[0]), _ => 0),
          if inputs == [] then 0 else assert w.inputs[0] in w.inputs; Side(inputs[0]),
          r.path)
  }

  /** A switch replaces the model, and the only live context, or changes nothing but the count of fatal
      reports. */
  function Switched(s: Stage, r: Request): Stage
    requires Sane(r.world, s.live)
  {
    if !HashPasses(s.sha, r) then s
    else if Loads(r.world) then
      s.(model := Fresh(r), live := (s.live - {s.model.ctx})[r.world.context.value := r.world.file.value])
    else s.(fatals := s.fatals + if s.model.ctx == 0 then 1 else 0)
  }

  /** The current context is the only live one. */
  ghost predicate Owned(s: Stage) {
    s.live.Keys == if s.model.ctx == 0 then {} else {s.model.ctx}
  }

  // ---------------------------------------------------------------- any number of switches

  ghost predicate SaneRun(s: Stage, requests: seq<Request>)
    decreases |requests|
  {
    requests == [] || (Sane(requests[0].world, s.live) && SaneRun(Switched(s, requests[0]), requests[1..]))
  }

  ghost function After(s: Stage, requests: seq<Request>): Stage
    requires SaneRun(s, requests)
    decreases |requests|
  {
    if requests == [] then s else After(Switched(s, requests[0]), requests[1..])
  }

  predicate Succeeds(sha: Content -> string, r: Request) {
    HashPasses(sha, r) && Loads(r.world)
  }

  lemma SwitchKeepsOwned(s: Stage, r: Request)
    requires Owned(s) && Sane(r.world, s.live)
    ensures Owned(Switched(s, r))
  {
    if Succeeds(s.sha, r) { SuccessReplaces(s, r); }
  }

  lemma SuccessReplaces(s: Stage, r: Request)
    requires Owned(s) && Sane(r.world, s.live) && Succeeds(s.sha, r)
    ensures Switched(s, r).model == Fresh(r)
    ensures Switched(s, r).live == map[r.world.context.value := r.world.file.value]
  {
    assert s.live - {s.model.ctx} == map[];
  }

  /** Over any sequence of switches, failing anywhere, exactly the current context is alive. */
  lemma {:induction false} NoContextLeaks(s: Stage, requests: seq<Request>)
    requires Owned(s) && SaneRun(s, requests)
    ensures Owned(After(s, requests))
    decreases |requests|
  {
    if requests != [] {
      SwitchKeepsOwned(s, requests[0]);
      NoContextLeaks(Switched(s, requests[0]), requests[1..]);
    }
  }

  lemma FailureChangesNothing(s: Stage, r: Request)
    requires Owned(s) && Sane(r.world, s.live) && !Succeeds(s.sha, r)
    ensures Switched(s, r).model == s.model && Switched(s, r).live == s.live
    ensures s.model.ctx != 0 ==> Switched(s, r) == s
  {
  }

  /** Failed switches leave no trace but fatal reports, and none of those while a model is loaded. */
  lemma {:induction false} FailuresChangeNothing(s: Stage, requests: seq<Request>)
    requires Owned(s) && SaneRun(s, requests) && forall j | 0 <= j < |requests| :: !Succeeds(s.sha, requests[j])
    ensures After(s, requests).model == s.model && After(s, requests).live == s.live
    ensures s.model.ctx != 0 ==> After(s, requests) == s
    decreases |requests|
  {
    if requests != [] {
      FailureChangesNothing(s, requests[0]);
      FailuresChangeNothing(Switched(s, requests[0]), requests[1..]);
    }
  }

  /** The stage holds what this request loads, and nothing else is alive. */
  ghost predicate Holds(s: Stage, r: Request)
    requires Loads(r.world)
  {
    && Consistent(r.world)
    && s.model == Fresh(r)
    && s.live == map[r.world.context.value := r.world.file.value]
  }

  /** The last request that succeeds decides everything: model, path, buffers and the one live context. */
  lemma {:induction false} LastSuccessDecides(s: Stage, requests: seq<Request>, k: nat)
    requires Owned(s) && SaneRun(s, requests) && k < |requests| && Succeeds(s.sha, requests[k])
    requires forall j | k < j < |requests| :: !Succeeds(s.sha, requests[j])
    ensures Holds(After(s, requests), requests[k])
    decreases |requests|
  {
    var t := Switched(s, requests[0]);
    SwitchKeepsOwned(s, requests[0]);
    if k == 0 {
      SuccessReplaces(s, requests[0]);
      assert Holds(t, requests[0]);
      FailuresChangeNothing(t, requests[1..]);
    } else {
      LastSuccessDecides(t, requests[1..], k - 1);
    }
  }

  // ---------------------------------------------------------------- the hash that was asked for

  /** The loaded model has the hash that the request asked for. */
  ghost predicate AsAsked(t: Stage, r: Request) {
    t.model.ctx in t.live && t.sha(t.live[t.model.ctx]) == r.expected
  }

  /** A successful switch with a hash has loaded what was asked for exactly if the two readings of the file
      have the same hash. */
  lemma AsAskedIffSameHash(s: Stage, r: Request)
    requires Owned(s) && Sane(r.world, s.live) && Succeeds(s.sha, r) && r.expected != ""
    ensures r.first.Some?
    ensures AsAsked(Switched(s, r), r) <==> s.sha(r.first.value) == s.sha(r.world.file.value)
  {
    SuccessReplaces(s, r);
  }

  /** If nobody touches the file in between, it has. */
  lemma UntouchedFileIsAsAsked(s: Stage, r: Request)
    requires Owned(s) && Sane(r.world, s.live) && Succeeds(s.sha, r) && r.expected != ""
    requires r.first == r.world.file
    ensures AsAsked(Switched(s, r), r)
  {
    AsAskedIffSameHash(s, r);
  }

  /** The request for the hash of one content, with another in the file when it is loaded. */
  function Swap(sha: Content -> string, path: string, a: Content, w: World): Request {
    Request(path, sha(a), Some(a), w)
  }

  /** If the file is replaced by one with another hash in between, the switch still succeeds, and a live context
      with a wrong hash is what it leaves. */
  lemma ReplacedFileIsAccepted(s: Stage, path: string, a: Content, w: World)
    requires Owned(s) && Sane(w, s.live) && Loads(w) && s.sha(a) != "" && s.sha(a) != s.sha(w.file.value)
    ensures var r := Swap(s.sha, path, a, w);
            && Succeeds(s.sha, r) && !AsAsked(Switched(s, r), r)
            && Switched(s, r).live == map[w.context.value := w.file.value]
  {
    var r := Swap(s.sha, path, a, w);
    SuccessReplaces(s, r);
    AsAskedIffSameHash(s, r);
  }

  /** Such a switch: a fresh stage is asked for the content [0] and given [1], and says that it succeeded. */
  lemma WrongModelIsLoaded()
    ensures var sha := (c: Content) => if c == [0] then "0" else "1";
            var s := Stage(Model(0, (0, 0), [], [], [], 0, "old"), map[], 0, sha);
            var w := World(Some([1]), true, Some(7), Some((0, 0)), [], []);
            var r := Swap(sha, "new", [0], w);
            && Owned(s) && Sane(w, s.live) && Succeeds(sha, r)
            && !AsAsked(Switched(s, r), r) && Switched(s, r).live == map[7 := [1]]
  {
    var sha := (c: Content) => if c == [0] then "0" else "1";
    var s := Stage(Model(0, (0, 0), [], [], [], 0, "old"), map[], 0, sha);
    var w := World(Some([1]), true, Some(7), Some((0, 0)), [], []);
    var one: Content := [1];
    assert one[0] == 1 && one != [0];
    ReplacedFileIsAccepted(s, "new", [0], w);
  }

  /** The switch to the hash of a, with hash function sha, does what it was asked for if it succeeds. */
  ghost predicate Honest(s: Stage, sha: Content -> string, path: string, a: Content, w: World)
    requires Sane(w, s.live)
  {
    var r := Swap(sha, path, a, w);
    Succeeds(sha, r) && r.expected != "" ==> AsAsked(Switched(s.(sha := sha), r), r)
  }

  /** Whatever the hash function is, the switch does what it was asked for, exactly if the file was not changed
      between the two readings. */
  lemma HonestIffUntouched(s: Stage, path: string, a: Content, w: World)
    requires Owned(s) && Sane(w, s.live) && Loads(w)
    ensures (forall sha :: Honest(s, sha, path, a, w)) <==> a == w.file.value
  {
    if a == w.file.value {
      forall sha ensures Honest(s, sha, path, a, w) {
        var r := Swap(sha, path, a, w);
        if Succeeds(sha, r) && r.expected != "" { UntouchedFileIsAsAsked(s.(sha := sha), r); }
      }
    } else {
      var tell := (c: Content) => if c == a then "a" else "b";
      ReplacedFileIsAccepted(s.(sha := tell), path, a, w);
      assert !Honest(s, tell, path, a, w);
    }
  }

  /** Linked with SHA-256, the loaded model is the one asked for exactly if the two readings have one digest. */
  lemma AsAskedIffSameDigest(s: Stage, r: Request)
    requires Owned(s) && Sane(r.world, s.live) && Succeeds(s.sha, r) && r.expected != ""
    ensures r.first.Some?
    ensures s.sha == W.Printed ==>
              (AsAsked(Switched(s, r), r)
               <==> Digest(W.OPS, r.first.value) == Digest(W.OPS, r.world.file.value))
  {
    AsAskedIffSameHash(s, r);
    W.PrintedTells(r.first.value, r.world.file.value);
  }

  // ---------------------------------------------------------------- the code

  class InferenceStage {
    const sha: Content -> string       // sha256_buffer
    var ctx: nat
    var ioNum: (nat, nat)
    var inputAttrs: seq<Attr>
    var outputAttrs: seq<Attr>
    var inputBuf: Content
    var inputSize: nat
    var modelPath: string
    var fatals: nat                    // calls of fatal_cb_
    ghost var live: map<nat, Content>  // contexts created and not destroyed, with what each was built from

    ghost function State(): Stage
      reads this
    {
      Stage(Model(ctx, ioNum, inputAttrs, outputAttrs, inputBuf, inputSize, modelPath), live, fatals, sha)
    }

    constructor (path: string, hash: Content -> string)
      ensures State() == Stage(Model(0, (0, 0), [], [], [], 0, path), map[], 0, hash) && Owned(State())
    {
      sha := hash;
      ctx, ioNum, inputAttrs, outputAttrs, inputBuf, inputSize := 0, (0, 0), [], [], [], 0;
      modelPath, fatals, live := path, 0, map[];
    }

    /** destroy_rknn. */
    method DestroyRknn()
      modifies this`ctx, this`live
      ensures ctx == 0 && live == if old(ctx) == 0 then old(live) else old(live) - {old(ctx)}
    {
      if ctx != 0 {
        live := live - {ctx};
        ctx := 0;
      }
    }

    /** init_rknn, called with no context and cleared tables. */
    method InitRknn(r: Request) returns (ok: bool)
      requires ctx == 0 && Sane(r.world, live) && inputBuf == [] && inputSize == 0
      modifies this
      ensures ok <==> Loads(r.world)
      ensures modelPath == old(modelPath) && fatals == old(fatals)
      ensures ok ==> State().model == Fresh(r).(path := old(modelPath))
      ensures ok ==> live == old(live)[r.world.context.value := r.world.file.value]
      ensures !ok ==> ctx == 0 && live == old(live)
    {
      var w := r.world;
      if w.file.None? || !w.complete {
        return false;
      }
      if w.context.None? {
        ctx := 0;
        return false;
      }
      ctx := w.context.value;
      live := live[ctx := w.file.value];
      if w.io.None? {
        DestroyRknn();
        assert live == old(live);
        return false;
      }
      ioNum := w.io.value;
      var inputs, answered := Query(w.inputs, ioNum.0);
      inputAttrs := inputs;
      if !answered {
        DestroyRknn();
        assert live == old(live);
        return false;
      }
      var outputs;
      outputs, answered := Query(w.outputs, ioNum.1);
      outputAttrs := outputs;
      if !answered {
        DestroyRknn();
        assert live == old(live);
        return false;
      }
      if ioNum.0 > 0 {
        assert w.inputs[0] in w.inputs;
        Allocate(inputAttrs[0]);
      }
      return true;
    }

    /** Both query loops: they stop at the first refusal. */
    method Query(answers: seq<Option<Attr>>, n: nat) returns (attrs: seq<Attr>, ok: bool)
      requires n <= |answers|
      ensures ok <==> forall i | 0 <= i < n :: answers[i].Some?
      ensures ok ==> attrs == Values(answers, n)
    {
      attrs := [];
      for i := 0 to n
        invariant forall j | 0 <= j < i :: answers[j].Some?
        invariant attrs == Values(answers, i)
      {
        if answers[i].None? {
          return attrs, false;
        }
        attrs := attrs + [answers[i].value];
      }
      ok := true;
    }

    /** The input side and the input buffer, from the first input. */
    method Allocate(a: Attr)
      requires WellFormed(a)
      modifies this`inputSize, this`inputBuf
      ensures inputSize == Side(a) && inputBuf == seq(BufferSize(a), _ => 0)
    {
      var h := a.dims[1];
      var w := a.dims[2];
      if a.nchw {
        h := a.dims[2];
        w := a.dims[3];
      }
      inputSize := if h > w then h else w;
      var total := 1;
      for d := 0 to a.nDims
        invariant total == Product(a.dims[..d])
      {
        assert a.dims[..d + 1][..d] == a.dims[..d];
        total := total * a.dims[d];
      }
      if a.float32 {
        total := total * 4;
      }
      inputBuf := seq(total, _ => 0);
    }

    /** switch_model. */
    method SwitchModel(r: Request) returns (ok: bool)
      requires Sane(r.world, live) && Owned(State())
      modifies this
      ensures ok <==> HashPasses(sha, r) && Loads(r.world)
      ensures HashPasses(sha, r) <==> r.expected == "" || (r.first.Some? && sha(r.first.value) == r.expected)
      ensures State() == Switched(old(State()), r) && Owned(State())
    {
      if r.expected != "" {
        var actual := FileHash(sha, r.first);
        if actual == "" {
          return false;
        }
        if actual != r.expected {
          return false;
        }
      }
      ok := Replace(r);
    }

    /** The rest of switch_model: save, clear, load, and destroy the old context or put everything back. */
    method Replace(r: Request) returns (ok: bool)
      requires Sane(r.world, live) && Owned(State()) && HashPasses(sha, r)
      modifies this
      ensures ok <==> Loads(r.world)
      ensures State() == Switched(old(State()), r) && Owned(State())
    {
      var oldCtx, oldBuf, oldInputs, oldOutputs := ctx, inputBuf, inputAttrs, outputAttrs;
      var oldIo, oldSize, oldPath := ioNum, inputSize, modelPath;
      if Loads(r.world) { SuccessReplaces(State(), r); }
      ctx := 0;
      inputBuf := [];
      inputAttrs := [];
      outputAttrs := [];
      ioNum := (0, 0);
      inputSize := 0;
      ok := InitRknn(r);
      if ok {
        if oldCtx != 0 {
          live := live - {oldCtx};
        }
        modelPath := r.path;
        return true;
      }
      DestroyRknn();
      ctx := oldCtx;
      inputBuf := oldBuf;
      inputAttrs := oldInputs;
      outputAttrs := oldOutputs;
      ioNum := oldIo;
      inputSize := oldSize;
      modelPath := oldPath;
      if ctx != 0 {
        return false;
      }
      fatals := fatals + 1;
      return false;
    }
  }
}
