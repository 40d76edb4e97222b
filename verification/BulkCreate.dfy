/**
  Bulk create (the `Save` of every `*CreateBulk` builder, for example in
  backend/ent/account_create.go).

  Builder i's mutator checks, builds its spec and calls mutator i+1 from inside itself; only the
  innermost one touches the database, and identifiers and `done` flags are set on the way back out.
  Every mutator is wrapped by the hooks of its builder.
*/
module BulkCreate {
  import opened Common

  /**
    A hook either returns without calling `next`, or edits the mutation, calls `next` once and answers
    with an error of its own choice: it may pass the outcome on, fail although `next` succeeded, or
    succeed although `next` failed.  An edit in place changes the builder's own mutation; otherwise
    `next` receives an edited copy.
  */
  datatype Hook<!M, !E> =
    | Skips(result: Option<E>)
    | Wraps(edit: M -> M, inPlace: bool, answer: Option<E> -> Option<E>)

  datatype Builder<!M, !E> = Builder(mutation: M, hooks: seq<Hook<M, E>>)

  /** The mutation handed to a mutator: the builder's own one, or some other one. */
  datatype Passed<!M> = Own | Other(m: M)

  datatype Spec<!S> = Spec(fields: S, id: Option<int>)

  datatype Node<!N> = Node(id: int, body: N)

  /** The answer of the batch insert: the identifier it supplied for each spec, if any. */
  datatype Insertion<!E> = Failed(error: E) | Inserted(ids: nat -> Option<int>)

  datatype Event<!S> =
    | EnterHook(i: nat, h: nat)
    | ExitHook(i: nat, h: nat)
    | Check(i: nat)
    | Build(i: nat)
    | Insert(specs: seq<Option<Spec<S>>>)
    | Done(i: nat)

  /** `pointsAt[i]` is the node whose ID the mutation of builder i refers to. */
  datatype State<!M, !N, !S> = State(
    mutations: seq<M>,
    specs: seq<Option<Spec<S>>>,
    nodes: seq<Option<Node<N>>>,
    pointsAt: seq<Option<nat>>,
    done: seq<bool>,
    trace: seq<Event<S>>)
  {
    ghost predicate Sized(n: nat) {
      |mutations| == n && |specs| == n && |nodes| == n && |pointsAt| == n && |done| == n
    }

    function Log(e: Event<S>): State<M, N, S> {
      this.(trace := trace + [e])
    }
  }

  function WithIds<S>(specs: seq<Option<Spec<S>>>, ids: nat -> Option<int>): seq<Option<Spec<S>>> {
    seq(|specs|, j requires 0 <= j < |specs| =>
      if specs[j].Some? then Some(specs[j].value.(id := ids(j))) else None)
  }

  /** What closes an event on the way out, when the builders in `completing` complete. */
  function Closing<S>(e: Event<S>, completing: set<nat>): seq<Event<S>> {
    match e
    case EnterHook(i, h) => [ExitHook(i, h)]
    case Build(i) => if i in completing then [Done(i)] else []
    case _ => []
  }

  /** The exact reverse of a descent. */
  function Mirror<S>(d: seq<Event<S>>, completing: set<nat>): seq<Event<S>> {
    if d == [] then [] else Mirror(d[1..], completing) + Closing(d[0], completing)
  }

  datatype Bulk<!M, !N, !S, !E(!new)> = Bulk(
    builders: seq<Builder<M, E>>,
    defaults: M -> M,
    check: M -> Option<E>,
    build: M -> (N, S),
    insert: seq<Option<Spec<S>>> -> Insertion<E>)
  {
    // ----- the chain

    function Start(): State<M, N, S> {
      var n := |builders|;
      State(
        seq(n, i requires 0 <= i < n => defaults(builders[i].mutation)),
        seq(n, i => None), seq(n, i => None), seq(n, i => None), seq(n, i => false), [])
    }

    function Value(s: State<M, N, S>, i: nat, p: Passed<M>): M
      requires i < |s.mutations|
    {
      if p.Own? then s.mutations[i] else p.m
    }

    /** Runs mutator i from its hook h on; the second result is the error it returns. */
    function Mutate(s: State<M, N, S>, i: nat, h: nat, p: Passed<M>): (r: (State<M, N, S>, Option<E>))
      requires s.Sized(|builders|) && i < |builders| && h <= |builders[i].hooks|
      ensures r.0.Sized(|builders|)
      decreases |builders| - i, |builders[i].hooks| - h
    {
      if h < |builders[i].hooks| then
        var entered := s.Log(EnterHook(i, h));
        match builders[i].hooks[h]
        case Skips(result) => (entered.Log(ExitHook(i, h)), result)
        case Wraps(edit, inPlace, answer) =>
          var edited := edit(Value(s, i, p));
          var (inner, err) :=
            if p.Own? && inPlace
            then Mutate(entered.(mutations := entered.mutations[i := edited]), i, h + 1, Own)
            else Mutate(entered, i, h + 1, Other(edited));
          (inner.Log(ExitHook(i, h)), answer(err))
      else
        var checked := s.Log(Check(i));
        if check(s.mutations[i]).Some? then (checked, check(s.mutations[i]))
        else
          var m := Value(s, i, p);
          var (body, fields) := build(m);
          var built := checked.(
            mutations := checked.mutations[i := m],
            nodes := checked.nodes[i := Some(Node(0, body))],
            specs := checked.specs[i := Some(Spec(fields, None))]).Log(Build(i));
          var (inner, err) :=
            if i + 1 < |builders| then Mutate(built, i + 1, 0, Own) else BatchCreate(built);
          if err.Some? then (inner, err) else (Complete(inner, i), None)
    }

    function BatchCreate(s: State<M, N, S>): (State<M, N, S>, Option<E>) {
      var logged := s.Log(Insert(s.specs));
      match insert(s.specs)
      case Failed(e) => (logged, Some(e))
      case Inserted(ids) => (logged.(specs := WithIds(s.specs, ids)), None)
    }

    /** The steps after the inner mutator has succeeded. */
    function Complete(s: State<M, N, S>, i: nat): State<M, N, S>
      requires s.Sized(|builders|) && i < |builders|
    {
      var node := s.nodes[i];
      var numbered :=
        if node.Some? && s.specs[i].Some? && s.specs[i].value.id.Some?
        then Some(node.value.(id := s.specs[i].value.id.value)) else node;
      s.(
        pointsAt := s.pointsAt[i := Some(i)],
        nodes := s.nodes[i := numbered],
        done := s.done[i := true]).Log(Done(i))
    }

    // ----- what the chain amounts to, without running it

    /** The builder's own mutation and the one passed on, after its first h hooks. */
    function Mid(i: nat, h: nat): (M, Passed<M>)
      requires i < |builders| && h <= |builders[i].hooks|
    {
      if h == 0 then (defaults(builders[i].mutation), Own)
      else
        var (own, p) := Mid(i, h - 1);
        match builders[i].hooks[h - 1]
        case Skips(_) => (own, p)
        case Wraps(edit, inPlace, _) =>
          var edited := edit(if p.Own? then own else p.m);
          if p.Own? && inPlace then (edited, Own) else (own, Other(edited))
    }

    /** The mutation that builder i's `check` sees. */
    function Checked(i: nat): M
      requires i < |builders|
    {
      Mid(i, |builders[i].hooks|).0
    }

    /** The mutation that builder i's spec is built from. */
    function Saved(i: nat): M
      requires i < |builders|
    {
      var (own, p) := Mid(i, |builders[i].hooks|);
      if p.Own? then own else p.m
    }

    /** The builders in front of this index get to build, the one at it does not. */
    function Depth(i: nat, h: nat): (d: nat)
      requires i < |builders| && h <= |builders[i].hooks|
      ensures i <= d <= |builders|
      decreases |builders| - i, |builders[i].hooks| - h
    {
      if h < |builders[i].hooks| then if builders[i].hooks[h].Skips? then i else Depth(i, h + 1)
      else if check(Checked(i)).Some? then i
      else if i + 1 < |builders| then Depth(i + 1, 0)
      else |builders|
    }

    /** The events of the descent, up to the insert or the first obstacle. */
    function Path(i: nat, h: nat): seq<Event<S>>
      requires i < |builders| && h <= |builders[i].hooks|
      decreases |builders| - i, |builders[i].hooks| - h
    {
      if h < |builders[i].hooks| then
        [EnterHook(i, h)] + if builders[i].hooks[h].Skips? then [] else Path(i, h + 1)
      else
        [Check(i)] +
        if check(Checked(i)).Some? then []
        else [Build(i)] + if i + 1 < |builders| then Path(i + 1, 0) else []
    }

    /** The error that mutator i returns from its hook h on, when the insert answers with `e`. */
    function Report(i: nat, h: nat, e: Option<E>): Option<E>
      requires i < |builders| && h <= |builders[i].hooks|
      decreases |builders| - i, |builders[i].hooks| - h, 1
    {
      if h < |builders[i].hooks| then
        match builders[i].hooks[h]
        case Skips(result) => result
        case Wraps(_, _, answer) => answer(Report(i, h + 1, e))
      else if check(Checked(i)).Some? then check(Checked(i))
      else Heard(i, e)
    }

    /** The error that builder i hears back from the mutator or the insert behind it. */
    function Heard(i: nat, e: Option<E>): Option<E>
      requires i < |builders|
      decreases |builders| - i, 0, 0
    {
      if i + 1 < |builders| then Report(i + 1, 0, e) else e
    }

    /** The builders that complete if they get to build. */
    function Completing(e: Option<E>): set<nat> {
      set i: nat | i < |builders| && Heard(i, e).None?
    }

    function FinalSpec(i: nat): Option<Spec<S>>
      requires i < |builders|
    {
      Some(Spec(build(Saved(i)).1, None))
    }

    /** The specs after the builders from i up to d have built theirs. */
    function Batch(s: State<M, N, S>, i: nat, d: nat): seq<Option<Spec<S>>>
      requires s.Sized(|builders|) && i <= d <= |builders|
    {
      s.specs[..i] + seq(d - i, k requires 0 <= k < d - i => FinalSpec(i + k)) + s.specs[d..]
    }

    /** The error of the insert, which runs exactly when all builders have built. */
    function InsertError(batch: seq<Option<Spec<S>>>, d: nat): Option<E> {
      if d == |builders| && insert(batch).Failed? then Some(insert(batch).error) else None
    }

    /** The specs after the insert, if it ran. */
    function FinalSpecs(batch: seq<Option<Spec<S>>>, d: nat): seq<Option<Spec<S>>> {
      if d == |builders| && insert(batch).Inserted? then WithIds(batch, insert(batch).ids) else batch
    }

    /** `s` is about to run mutator i from hook h on. */
    ghost predicate Ready(s: State<M, N, S>, i: nat, h: nat) {
      && s.Sized(|builders|) && i < |builders| && h <= |builders[i].hooks|
      && s.mutations[i] == Mid(i, h).0
      && forall j :: i < j < |builders| ==> s.mutations[j] == Mid(j, 0).0
    }

    /** The way down, the centre and the exact way back. */
    ghost predicate Nested(s: State<M, N, S>, r: State<M, N, S>, path: seq<Event<S>>, centre: seq<Event<S>>,
                           completing: set<nat>) {
      r.trace == s.trace + path + centre + Mirror(path, completing)
    }

    function Centre(batch: seq<Option<Spec<S>>>, d: nat): seq<Event<S>> {
      if d == |builders| then [Insert(batch)] else []
    }

    /** What happened to builder j, if the builders from i up to d have built. */
    ghost predicate Settled(s: State<M, N, S>, i: nat, d: nat, r: State<M, N, S>, e: Option<E>, j: nat)
      requires s.Sized(|builders|) && r.Sized(|builders|) && j < |builders|
    {
      if !(i <= j < d) then
        r.done[j] == s.done[j] && r.pointsAt[j] == s.pointsAt[j] && r.nodes[j] == s.nodes[j]
      else if j !in Completing(e) then
        && r.done[j] == s.done[j] && r.pointsAt[j] == s.pointsAt[j]
        && r.nodes[j] == Some(Node(0, build(Saved(j)).0))
      else
        && r.done[j] && r.pointsAt[j] == Some(j) && r.specs[j].Some?
        && r.nodes[j] == Some(Node(
             if r.specs[j].value.id.Some? then r.specs[j].value.id.value else 0, build(Saved(j)).0))
    }

    ghost predicate AllSettled(s: State<M, N, S>, i: nat, d: nat, r: State<M, N, S>, e: Option<E>)
      requires s.Sized(|builders|) && r.Sized(|builders|)
    {
      forall j :: 0 <= j < |builders| ==> Settled(s, i, d, r, e, j)
    }

    /** The whole run of mutator i: error, trace, specs, nodes and completion marks. */
    ghost predicate Behaves(s: State<M, N, S>, i: nat, h: nat, r: State<M, N, S>, err: Option<E>)
      requires Ready(s, i, h) && r.Sized(|builders|)
    {
      var d := Depth(i, h);
      var batch := Batch(s, i, d);
      var e := InsertError(batch, d);
      && err == Report(i, h, e)
      && Nested(s, r, Path(i, h), Centre(batch, d), Completing(e))
      && r.specs == FinalSpecs(batch, d)
      && AllSettled(s, i, d, r, e)
    }

    // ----- the run behaves as described

    static lemma MirrorCons(e: Event<S>, rest: seq<Event<S>>, completing: set<nat>)
      ensures Mirror([e] + rest, completing) == Mirror(rest, completing) + Closing(e, completing)
    {
      assert ([e] + rest)[1..] == rest;
    }

    static lemma Regroup(a: seq<Event<S>>, b: seq<Event<S>>, c: seq<Event<S>>,
                         d: seq<Event<S>>, e: seq<Event<S>>, f: seq<Event<S>>)
      ensures a + b + c + d + e + f == a + (b + c) + d + (e + f)
    {
      assert a + b + c == a + (b + c);
      var g := a + (b + c) + d;
      assert g + e + f == g + (e + f);
    }

    /** One more opening event before, and its closing event after, a nested run. */
    lemma NestedStep(s: State<M, N, S>, e: Event<S>, before: State<M, N, S>, path: seq<Event<S>>,
                     centre: seq<Event<S>>, completing: set<nat>, r: State<M, N, S>, r': State<M, N, S>)
      requires before.trace == s.trace + [e] && Nested(before, r, path, centre, completing)
      requires r'.trace == r.trace + Closing(e, completing)
      ensures Nested(s, r', [e] + path, centre, completing)
    {
      MirrorCons(e, path, completing);
      Regroup(s.trace, [e], path, centre, Mirror(path, completing), Closing(e, completing));
    }

    /** A run that stops right after its first event. */
    lemma NestedStop(s: State<M, N, S>, e: Event<S>, r: State<M, N, S>, completing: set<nat>)
      requires r.trace == s.trace + [e] + Closing(e, completing)
      ensures Nested(s, r, [e] + [], [], completing)
    {
      var entered := s.Log(e);
      assert Nested(entered, entered, [], [], completing);
      NestedStep(s, e, entered, [], [], completing, entered, r);
    }

    lemma NothingBuilt(s: State<M, N, S>, i: nat, r: State<M, N, S>, e: Option<E>)
      requires s.Sized(|builders|) && i < |builders| && r == s.(trace := r.trace)
      ensures Batch(s, i, i) == s.specs && AllSettled(s, i, i, r, e)
    {
    }

    lemma SkipBehaves(s: State<M, N, S>, i: nat, h: nat)
      requires Ready(s, i, h) && h < |builders[i].hooks| && builders[i].hooks[h].Skips?
      ensures Behaves(s, i, h, s.Log(EnterHook(i, h)).Log(ExitHook(i, h)), builders[i].hooks[h].result)
    {
      var r := s.Log(EnterHook(i, h)).Log(ExitHook(i, h));
      var e := InsertError(Batch(s, i, i), i);
      NothingBuilt(s, i, r, e);
      NestedStop(s, EnterHook(i, h), r, Completing(e));
    }

    lemma RejectionBehaves(s: State<M, N, S>, i: nat)
      requires i < |builders| && Ready(s, i, |builders[i].hooks|) && check(Checked(i)).Some?
      ensures Behaves(s, i, |builders[i].hooks|, s.Log(Check(i)), check(Checked(i)))
    {
      var r := s.Log(Check(i));
      var e := InsertError(Batch(s, i, i), i);
      NothingBuilt(s, i, r, e);
      assert r.trace == s.trace + [Check(i)] + [];
      NestedStop(s, Check(i), r, Completing(e));
    }

    lemma HookBehaves(s: State<M, N, S>, i: nat, h: nat, before: State<M, N, S>, r: State<M, N, S>, err: Option<E>)
      requires Ready(s, i, h) && h < |builders[i].hooks| && builders[i].hooks[h].Wraps?
      requires Ready(before, i, h + 1)
      requires before == s.Log(EnterHook(i, h)).(mutations := before.mutations)
      requires r.Sized(|builders|) && Behaves(before, i, h + 1, r, err)
      ensures Behaves(s, i, h, r.Log(ExitHook(i, h)), builders[i].hooks[h].answer(err))
    {
      var d := Depth(i, h);
      var batch, r' := Batch(s, i, d), r.Log(ExitHook(i, h));
      var e := InsertError(batch, d);
      assert Batch(before, i, d) == batch;
      NestedStep(s, EnterHook(i, h), before, Path(i, h + 1), Centre(batch, d), Completing(e), r, r');
      SettledAlike(before, s, i, d, r, r', e);
    }

    lemma SettledAlike(s: State<M, N, S>, s': State<M, N, S>, i: nat, d: nat, r: State<M, N, S>, r': State<M, N, S>,
                       e: Option<E>)
      requires s.Sized(|builders|) && r.Sized(|builders|) && AllSettled(s, i, d, r, e)
      requires s'.Sized(|builders|) && s' == s.(trace := s'.trace, mutations := s'.mutations)
      requires r' == r.(trace := r'.trace)
      ensures AllSettled(s', i, d, r', e)
    {
      forall j | 0 <= j < |builders|
        ensures Settled(s', i, d, r', e, j)
      {
        assert Settled(s, i, d, r, e, j);
      }
    }

    /** Mutator i has checked and has built its node and spec. */
    ghost predicate IsBuilt(s: State<M, N, S>, i: nat, built: State<M, N, S>)
      requires i < |builders| && Ready(s, i, |builders[i].hooks|)
    {
      && built.Sized(|builders|)
      && built.specs == s.specs[i := FinalSpec(i)]
      && built.nodes == s.nodes[i := Some(Node(0, build(Saved(i)).0))]
      && built.done == s.done && built.pointsAt == s.pointsAt
      && built.trace == s.trace + [Check(i), Build(i)]
    }

    /** How the run behind builder i ended: in a later mutator, or in the insert. */
    ghost predicate Continues(s: State<M, N, S>, i: nat, built: State<M, N, S>, inner: State<M, N, S>, err: Option<E>)
      requires i < |builders| && Ready(s, i, |builders[i].hooks|) && IsBuilt(s, i, built) && inner.Sized(|builders|)
      requires check(Checked(i)).None?
    {
      var d := Depth(i, |builders[i].hooks|);
      var batch := Batch(s, i, d);
      var e := InsertError(batch, d);
      && err == Heard(i, e)
      && Nested(built, inner, if i + 1 < |builders| then Path(i + 1, 0) else [], Centre(batch, d), Completing(e))
      && inner.specs == FinalSpecs(batch, d)
      && i < d && AllSettled(built, i + 1, d, inner, e)
    }

    lemma BatchOfBuilt(s: State<M, N, S>, i: nat, built: State<M, N, S>, d: nat)
      requires i < d <= |builders| && Ready(s, i, |builders[i].hooks|) && IsBuilt(s, i, built)
      ensures Batch(built, i + 1, d) == Batch(s, i, d)
    {
      var a, b := Batch(built, i + 1, d), Batch(s, i, d);
      forall j | 0 <= j < |builders|
        ensures a[j] == b[j]
      {
      }
    }

    lemma InnerContinues(s: State<M, N, S>, i: nat, built: State<M, N, S>, inner: State<M, N, S>, err: Option<E>)
      requires i + 1 < |builders| && Ready(s, i, |builders[i].hooks|) && check(Checked(i)).None?
      requires IsBuilt(s, i, built) && Ready(built, i + 1, 0)
      requires inner.Sized(|builders|) && Behaves(built, i + 1, 0, inner, err)
      ensures Continues(s, i, built, inner, err)
    {
      BatchOfBuilt(s, i, built, Depth(i + 1, 0));
    }

    lemma InsertContinues(s: State<M, N, S>, i: nat, built: State<M, N, S>)
      requires i + 1 == |builders| && Ready(s, i, |builders[i].hooks|) && check(Checked(i)).None?
      requires IsBuilt(s, i, built)
      ensures var (inner, err) := BatchCreate(built); Continues(s, i, built, inner, err)
    {
      var n := |builders|;
      BatchOfBuilt(s, i, built, n);
      assert Batch(built, n, n) == built.specs;
      var (inner, _) := BatchCreate(built);
      var batch := Batch(s, i, n);
      assert inner.trace == built.trace + [] + [Insert(batch)] + Mirror([], Completing(InsertError(batch, n)));
    }

    lemma BuiltNested(s: State<M, N, S>, i: nat, built: State<M, N, S>, path: seq<Event<S>>,
                      centre: seq<Event<S>>, completing: set<nat>, r: State<M, N, S>, r': State<M, N, S>)
      requires built.trace == s.trace + [Check(i), Build(i)] && Nested(built, r, path, centre, completing)
      requires r'.trace == r.trace + (if i in completing then [Done(i)] else [])
      ensures Nested(s, r', [Check(i)] + ([Build(i)] + path), centre, completing)
    {
      var checked := s.Log(Check(i));
      assert built.trace == checked.trace + [Build(i)];
      NestedStep(checked, Build(i), built, path, centre, completing, r, r');
      assert r'.trace + [] == r'.trace;
      NestedStep(s, Check(i), checked, [Build(i)] + path, centre, completing, r', r');
    }

    lemma CompletionSettles(s: State<M, N, S>, i: nat, built: State<M, N, S>, d: nat, inner: State<M, N, S>,
                            e: Option<E>)
      requires i < d <= |builders| && Ready(s, i, |builders[i].hooks|) && IsBuilt(s, i, built)
      requires inner.Sized(|builders|) && inner.specs[i].Some? && AllSettled(built, i + 1, d, inner, e)
      ensures AllSettled(s, i, d, if i in Completing(e) then Complete(inner, i) else inner, e)
    {
      var r := if i in Completing(e) then Complete(inner, i) else inner;
      forall j | 0 <= j < |builders|
        ensures Settled(s, i, d, r, e, j)
      {
        assert Settled(built, i + 1, d, inner, e, j);
      }
    }

    lemma MutatorBehaves(s: State<M, N, S>, i: nat, built: State<M, N, S>, inner: State<M, N, S>, err: Option<E>)
      requires i < |builders| && Ready(s, i, |builders[i].hooks|) && check(Checked(i)).None?
      requires IsBuilt(s, i, built) && inner.Sized(|builders|) && Continues(s, i, built, inner, err)
      ensures Behaves(s, i, |builders[i].hooks|, if err.Some? then inner else Complete(inner, i), err)
    {
      var d, r := Depth(i, |builders[i].hooks|), if err.Some? then inner else Complete(inner, i);
      var rest := if i + 1 < |builders| then Path(i + 1, 0) else [];
      var batch := Batch(s, i, d);
      var e := InsertError(batch, d);
      assert batch[i] == FinalSpec(i);
      BuiltNested(s, i, built, rest, Centre(batch, d), Completing(e), inner, r);
      CompletionSettles(s, i, built, d, inner, e);
    }

    /** The state in which hook h of builder i calls `next`. */
    function Entered(s: State<M, N, S>, i: nat, h: nat, p: Passed<M>): State<M, N, S>
      requires s.Sized(|builders|) && i < |builders| && h < |builders[i].hooks| && builders[i].hooks[h].Wraps?
    {
      var entered, hook := s.Log(EnterHook(i, h)), builders[i].hooks[h];
      if p.Own? && hook.inPlace
      then entered.(mutations := entered.mutations[i := hook.edit(Value(s, i, p))])
      else entered
    }

    lemma HookCallsNext(s: State<M, N, S>, i: nat, h: nat)
      requires Ready(s, i, h) && h < |builders[i].hooks| && builders[i].hooks[h].Wraps?
      ensures
        var before := Entered(s, i, h, Mid(i, h).1);
        var (r, err) := Mutate(before, i, h + 1, Mid(i, h + 1).1);
        Mutate(s, i, h, Mid(i, h).1) == (r.Log(ExitHook(i, h)), builders[i].hooks[h].answer(err))
      ensures Ready(Entered(s, i, h, Mid(i, h).1), i, h + 1)
    {
    }

    /** Every run of a mutator, with any hooks and any answers of `check` and the insert. */
    lemma {:induction false} MutateBehaves(s: State<M, N, S>, i: nat, h: nat)
      requires Ready(s, i, h)
      ensures var (r, err) := Mutate(s, i, h, Mid(i, h).1); Behaves(s, i, h, r, err)
      decreases |builders| - i, |builders[i].hooks| - h, 1
    {
      if h == |builders[i].hooks| {
        InnerBehaves(s, i);
      } else if builders[i].hooks[h].Skips? {
        SkipBehaves(s, i, h);
      } else {
        var before := Entered(s, i, h, Mid(i, h).1);
        HookCallsNext(s, i, h);
        MutateBehaves(before, i, h + 1);
        var (r, err) := Mutate(before, i, h + 1, Mid(i, h + 1).1);
        HookBehaves(s, i, h, before, r, err);
      }
    }

    lemma {:induction false} InnerBehaves(s: State<M, N, S>, i: nat)
      requires i < |builders| && Ready(s, i, |builders[i].hooks|)
      ensures
        var h := |builders[i].hooks|;
        var (r, err) := Mutate(s, i, h, Mid(i, h).1);
        Behaves(s, i, h, r, err)
      decreases |builders| - i, 0, 0
    {
      if check(s.mutations[i]).Some? {
        RejectionBehaves(s, i);
      } else {
        var m := Value(s, i, Mid(i, |builders[i].hooks|).1);
        var (body, fields) := build(m);
        var built := s.Log(Check(i)).(
          mutations := s.mutations[i := m],
          nodes := s.nodes[i := Some(Node(0, body))],
          specs := s.specs[i := Some(Spec(fields, None))]).Log(Build(i));
        assert IsBuilt(s, i, built);
        if i + 1 < |builders| {
          assert Ready(built, i + 1, 0);
          MutateBehaves(built, i + 1, 0);
          var (inner, err) := Mutate(built, i + 1, 0, Own);
          InnerContinues(s, i, built, inner, err);
          MutatorBehaves(s, i, built, inner, err);
        } else {
          var (inner, err) := BatchCreate(built);
          InsertContinues(s, i, built);
          MutatorBehaves(s, i, built, inner, err);
        }
      }
    }

    // ----- where the descent stops

    ghost predicate HasSkip(i: nat)
      requires i < |builders|
    {
      exists h :: 0 <= h < |builders[i].hooks| && builders[i].hooks[h].Skips?
    }

    /** A hook of builder i does not call `next`, or its check fails. */
    ghost predicate Obstructs(i: nat)
      requires i < |builders|
    {
      HasSkip(i) || check(Checked(i)).Some?
    }

    lemma {:induction false} DepthIs(i: nat, h: nat)
      requires i < |builders| && h <= |builders[i].hooks|
      ensures
        var d, n := Depth(i, h), |builders[i].hooks|;
        && (d == i <==> (exists k :: h <= k < n && builders[i].hooks[k].Skips?) || check(Checked(i)).Some?)
        && (forall j :: i < j < d ==> !Obstructs(j))
        && (i < d < |builders| ==> Obstructs(d))
      decreases |builders| - i, |builders[i].hooks| - h
    {
      if h < |builders[i].hooks| {
        if builders[i].hooks[h].Wraps? { DepthIs(i, h + 1); }
      } else if check(Checked(i)).None? && i + 1 < |builders| {
        DepthIs(i + 1, 0);
        assert Obstructs(i + 1) <==> Depth(i + 1, 0) == i + 1;
      }
    }

    /** The descent stops at the first builder that obstructs it. */
    lemma StopsAtFirstObstacle()
      requires builders != []
      ensures forall j :: 0 <= j < Depth(0, 0) ==> !Obstructs(j)
      ensures Depth(0, 0) < |builders| ==> Obstructs(Depth(0, 0))
    {
      DepthIs(0, 0);
      assert Obstructs(0) <==> Depth(0, 0) == 0;
    }

    // ----- the planned order of events

    /** Builder i's hooks in list order, its check and its spec. */
    function Block(i: nat): seq<Event<S>>
      requires i < |builders|
    {
      seq(|builders[i].hooks|, h requires 0 <= h < |builders[i].hooks| => EnterHook(i, h)) + [Check(i), Build(i)]
    }

    /** The blocks of all builders from i on. */
    function Descent(i: nat): seq<Event<S>>
      requires i <= |builders|
      decreases |builders| - i
    {
      if i == |builders| then [] else Block(i) + Descent(i + 1)
    }

    /** What is left of the plan at hook h of builder i. */
    function Plan(i: nat, h: nat): seq<Event<S>>
      requires i < |builders| && h <= |builders[i].hooks|
      decreases |builders| - i, |builders[i].hooks| - h
    {
      if h < |builders[i].hooks| then [EnterHook(i, h)] + Plan(i, h + 1)
      else [Check(i)] + ([Build(i)] + if i + 1 < |builders| then Plan(i + 1, 0) else [])
    }

    /** What is left of a block at hook h. */
    lemma BlockFrom(i: nat, h: nat)
      requires i < |builders| && h <= |builders[i].hooks|
      ensures Block(i)[h..] ==
        if h < |builders[i].hooks| then [EnterHook(i, h)] + Block(i)[h + 1..] else [Check(i), Build(i)]
      ensures Block(i)[0..] == Block(i)
    {
    }

    static lemma ConsAssoc(e: Event<S>, a: seq<Event<S>>, b: seq<Event<S>>)
      ensures [e] + (a + b) == [e] + a + b
    {
    }

    lemma {:induction false} PlanIsDescent(i: nat, h: nat)
      requires i < |builders| && h <= |builders[i].hooks|
      ensures Plan(i, h) == Block(i)[h..] + Descent(i + 1)
      decreases |builders| - i, |builders[i].hooks| - h
    {
      BlockFrom(i, h);
      if h < |builders[i].hooks| {
        PlanIsDescent(i, h + 1);
        ConsAssoc(EnterHook(i, h), Block(i)[h + 1..], Descent(i + 1));
      } else {
        assert (if i + 1 < |builders| then Plan(i + 1, 0) else []) == Descent(i + 1) by {
          if i + 1 < |builders| {
            PlanIsDescent(i + 1, 0);
            BlockFrom(i + 1, 0);
          }
        }
        var check: Event<S>, build: Event<S> := Check(i), Build(i);
        ConsAssoc(check, [build], Descent(i + 1));
        assert [check] + [build] == [check, build];
      }
    }

    static lemma PrefixStep(e: Event<S>, a: seq<Event<S>>, b: seq<Event<S>>)
      requires a <= b
      ensures [e] + a <= [e] + b
    {
    }

    lemma {:induction false} PathFollowsPlan(i: nat, h: nat)
      requires i < |builders| && h <= |builders[i].hooks|
      ensures Path(i, h) <= Plan(i, h)
      ensures Depth(i, h) == |builders| ==> Path(i, h) == Plan(i, h)
      decreases |builders| - i, |builders[i].hooks| - h
    {
      if h < |builders[i].hooks| {
        PathFollowsPlan(i, h + 1);
        PrefixStep(EnterHook(i, h), Path(i, h + 1), Plan(i, h + 1));
      } else if check(Checked(i)).None? {
        var last := i + 1 == |builders|;
        var path, plan := if last then [] else Path(i + 1, 0), if last then [] else Plan(i + 1, 0);
        if i + 1 < |builders| { PathFollowsPlan(i + 1, 0); }
        PrefixStep(Build(i), path, plan);
        PrefixStep(Check(i), [Build(i)] + path, [Build(i)] + plan);
      }
    }

    /** The descent never leaves the planned order, and completes it when nothing obstructs. */
    lemma PathFollowsDescent()
      requires builders != []
      ensures Path(0, 0) <= Descent(0)
      ensures Depth(0, 0) == |builders| ==> Path(0, 0) == Descent(0)
    {
      PathFollowsPlan(0, 0);
      PlanIsDescent(0, 0);
      BlockFrom(0, 0);
    }

    static lemma {:induction false} MirrorHas(d: seq<Event<S>>, completing: set<nat>)
      ensures forall e :: e in Mirror(d, completing) ==> !e.Insert?
      ensures forall i :: Done(i) in Mirror(d, completing) <==> i in completing && Build(i) in d
    {
      if d != [] {
        MirrorHas(d[1..], completing);
        assert d == [d[0]] + d[1..];
      }
    }

    lemma {:induction false} DescentHas(i: nat)
      requires i <= |builders|
      ensures forall e :: e in Descent(i) ==> !e.Insert?
      ensures forall j :: i <= j < |builders| ==> Build(j) in Descent(i)
      decreases |builders| - i
    {
      if i < |builders| {
        DescentHas(i + 1);
        assert Block(i)[|builders[i].hooks| + 1] == Build(i);
        assert Build(i) in Block(i);
      }
    }

    // ----- the whole save

    function Outcome(): (State<M, N, S>, Option<E>)
      requires builders != []
    {
      Mutate(Start(), 0, 0, Own)
    }

    /** The specs that the one insert of an unobstructed save receives: each at its builder's index. */
    function FullBatch(): seq<Option<Spec<S>>> {
      seq(|builders|, i requires 0 <= i < |builders| => FinalSpec(i))
    }

    /** The error of the insert, if it ran and failed. */
    function Answer(): Option<E>
      requires builders != []
    {
      InsertError(FullBatch(), Depth(0, 0))
    }

    /** The error that builder j hears back. */
    function Hears(j: nat): Option<E>
      requires j < |builders|
    {
      Heard(j, Answer())
    }

    /** The error that builder j and its hooks return. */
    function Returns(j: nat): Option<E>
      requires j < |builders|
    {
      Report(j, 0, Answer())
    }

    lemma FirstBatch()
      requires builders != [] && Depth(0, 0) == |builders|
      ensures Batch(Start(), 0, |builders|) == FullBatch()
    {
    }

    /** The run of the first mutator is the whole save. */
    lemma SaveBehaves()
      requires builders != []
      ensures
        var (d, r) := (Depth(0, 0), Outcome().0);
        && Outcome().1 == Returns(0)
        && r.trace == Path(0, 0) + Centre(FullBatch(), d) + Mirror(Path(0, 0), Completing(Answer()))
        && (d == |builders| ==> r.specs == FinalSpecs(FullBatch(), d))
        && AllSettled(Start(), 0, d, r, Answer())
    {
      var d := Depth(0, 0);
      if d == |builders| { FirstBatch(); }
      assert Ready(Start(), 0, 0);
      MutateBehaves(Start(), 0, 0);
      assert InsertError(Batch(Start(), 0, d), d) == Answer();
      assert [] + Path(0, 0) == Path(0, 0);
    }

    /**
      Any save, successful or not: what was entered follows the planned order, is left in exact
      reverse, and the insert ran at most once, at the centre, and exactly when nothing obstructed.
    */
    lemma EverySaveIsNested() returns (k: nat, centre: seq<Event<S>>)
      requires builders != []
      ensures k <= |Descent(0)| && (centre == [] || centre == [Insert(FullBatch())])
      ensures Outcome().0.trace == Descent(0)[..k] + centre + Mirror(Descent(0)[..k], Completing(Answer()))
      ensures
        if forall i :: 0 <= i < |builders| ==> !Obstructs(i)
        then centre != [] && k == |Descent(0)|
        else centre == []
    {
      SaveBehaves();
      PathFollowsDescent();
      StopsAtFirstObstacle();
      k, centre := |Path(0, 0)|, Centre(FullBatch(), Depth(0, 0));
      assert Descent(0)[..k] == Path(0, 0);
    }

    lemma NoInsertOnTheWay(k: nat, completing: set<nat>, e: Event<S>)
      requires k <= |Descent(0)| && (e in Descent(0)[..k] || e in Mirror(Descent(0)[..k], completing))
      ensures !e.Insert?
    {
      DescentHas(0);
      MirrorHas(Descent(0)[..k], completing);
    }

    /** When some hook does not call `next` or some check fails, the insert never runs. */
    lemma ObstructedSaveNeverInserts(e: Event<S>)
      requires builders != [] && exists i :: 0 <= i < |builders| && Obstructs(i)
      requires e in Outcome().0.trace
      ensures !e.Insert?
    {
      var k, centre := EverySaveIsNested();
      var down := Descent(0)[..k];
      assert e in down + [] + Mirror(down, Completing(Answer()));
      NoInsertOnTheWay(k, Completing(Answer()), e);
    }

    /** What a save does to builder j. */
    lemma SavedBuilder(j: nat)
      requires j < |builders|
      ensures
        var (r, d) := (Outcome().0, Depth(0, 0));
        && r.Sized(|builders|)
        && (r.done[j] <==> j < d && Hears(j).None?)
        && r.pointsAt[j] == (if r.done[j] then Some(j) else None)
        && (r.done[j] ==> r.specs[j].Some? && r.nodes[j] == Some(Node(
             if r.specs[j].value.id.Some? then r.specs[j].value.id.value else 0, build(Saved(j)).0)))
    {
      SaveBehaves();
      assert Settled(Start(), 0, Depth(0, 0), Outcome().0, Answer(), j);
      assert j in Completing(Answer()) <==> Hears(j).None?;
    }

    /** Mutation j is done exactly when its builder got to build and heard no error. */
    lemma MarkedIff(j: nat)
      requires j < |builders|
      ensures Outcome().0.done[j] <==> (forall i :: 0 <= i <= j ==> !Obstructs(i)) && Hears(j).None?
      ensures Outcome().0.pointsAt[j] == if Outcome().0.done[j] then Some(j) else None
    {
      SavedBuilder(j);
      StopsAtFirstObstacle();
    }

    ghost predicate NothingMarked(r: State<M, N, S>) {
      (forall j :: 0 <= j < |r.done| ==> !r.done[j]) && forall j :: 0 <= j < |r.pointsAt| ==> r.pointsAt[j].None?
    }

    /**
      Every mutation is done and refers to its own node, whose ID is the one the insert supplied
      for its spec, or still zero.
    */
    ghost predicate EverythingSaved(r: State<M, N, S>) {
      && r.Sized(|builders|)
      && insert(FullBatch()).Inserted?
      && forall j :: 0 <= j < |builders| ==> SavedAt(r, j)
    }

    ghost predicate SavedAt(r: State<M, N, S>, j: nat)
      requires r.Sized(|builders|) && j < |builders| && insert(FullBatch()).Inserted?
    {
      var id := insert(FullBatch()).ids(j);
      && r.done[j] && r.pointsAt[j] == Some(j)
      && r.specs[j] == Some(Spec(build(Saved(j)).1, id))
      && r.nodes[j] == Some(Node(if id.Some? then id.value else 0, build(Saved(j)).0))
    }

    /** Everything is saved exactly when nothing obstructs and no builder hears an error. */
    lemma EverythingSavedIff()
      requires builders != []
      ensures EverythingSaved(Outcome().0) <==>
        Depth(0, 0) == |builders| && forall j :: 0 <= j < |builders| ==> Hears(j).None?
    {
      var r, n := Outcome().0, |builders|;
      if Depth(0, 0) == n && forall j :: 0 <= j < n ==> Hears(j).None? {
        assert Hears(n - 1) == Answer();
        SaveBehaves();
        forall j | 0 <= j < n
          ensures SavedAt(r, j)
        {
          SavedBuilder(j);
        }
      } else {
        var j: nat :| j < n && (Depth(0, 0) <= j || Hears(j).Some?);
        SavedBuilder(j);
        assert EverythingSaved(r) ==> SavedAt(r, j);
      }
    }

    lemma NothingMarkedIff()
      requires builders != []
      ensures NothingMarked(Outcome().0) <==> forall j :: 0 <= j < Depth(0, 0) ==> Hears(j).Some?
    {
      forall j | 0 <= j < |builders|
        ensures
          var r := Outcome().0;
          && r.Sized(|builders|)
          && (r.done[j] <==> j < Depth(0, 0) && Hears(j).None?)
          && (r.pointsAt[j].Some? <==> r.done[j])
      {
        SavedBuilder(j);
      }
    }

    lemma ObstructedIsNotSaved(i: nat)
      requires i < |builders| && Obstructs(i)
      ensures !EverythingSaved(Outcome().0)
    {
      StopsAtFirstObstacle();
      EverythingSavedIff();
    }

    /** The hooks of builder j turn an error that they hear into success, or success into an error. */
    ghost predicate Turns(j: nat)
      requires j < |builders|
    {
      Returns(j).Some? != Hears(j).Some?
    }

    /** Without a turn, everybody in front of the obstacle hears what the caller of the save hears. */
    lemma {:induction false} HeardByAll(k: nat)
      requires builders != [] && k <= Depth(0, 0) && forall j :: 0 <= j < k ==> !Turns(j)
      ensures forall j :: 0 <= j < k ==> Hears(j).Some? == Returns(0).Some?
      ensures k < |builders| ==> Returns(k).Some? == Returns(0).Some?
    {
      if k > 0 {
        HeardByAll(k - 1);
        assert !Turns(k - 1);
      }
    }

    ghost predicate AllOrNothing(r: State<M, N, S>, err: Option<E>) {
      if err.Some? then NothingMarked(r) else EverythingSaved(r)
    }

    /**
      All or nothing, exactly: an error with nothing marked, or success with everything saved, if and
      only if a builder that obstructs the descent is reported as an error and the hooks of no builder
      in front of it turn the outcome round.
    */
    lemma SaveIsAllOrNothing()
      requires builders != []
      ensures
        var d := Depth(0, 0);
        AllOrNothing(Outcome().0, Outcome().1) <==>
        (d < |builders| ==> Returns(d).Some?) && forall j :: 0 <= j < d ==> !Turns(j)
    {
      var d := Depth(0, 0);
      SaveBehaves();
      EverythingSavedIff();
      NothingMarkedIff();
      if forall j :: 0 <= j < d ==> !Turns(j) {
        HeardByAll(d);
      }
      assert forall j :: 0 < j < |builders| ==> Hears(j - 1) == Returns(j);
      if AllOrNothing(Outcome().0, Outcome().1) {
        assert d < |builders| && d > 0 ==> Hears(d - 1) == Returns(d);
        forall j | 0 <= j < d
          ensures !Turns(j)
        {
          assert j > 0 ==> Hears(j - 1) == Returns(j);
        }
      }
    }

    predicate IsBuilder(i: nat) {
      i < |builders|
    }

    function AllBuilders(): set<nat> {
      set i: nat | i < |builders| && IsBuilder(i)
    }

    /** All blocks in order, one insert of every spec, then all exits in reverse. */
    function FullTrace(): seq<Event<S>> {
      Descent(0) + [Insert(FullBatch())] + Mirror(Descent(0), AllBuilders())
    }

    /** The events of a save are those of the full plan exactly when everything is saved. */
    lemma WellNestedIff()
      requires builders != []
      ensures Outcome().0.trace == FullTrace() <==> EverythingSaved(Outcome().0)
    {
      var k, centre := EverySaveIsNested();
      var completing := Completing(Answer());
      EverythingSavedIff();
      StopsAtFirstObstacle();
      if EverythingSaved(Outcome().0) {
        assert Descent(0)[..k] == Descent(0);
        assert completing == AllBuilders() by {
          assert forall j: nat :: j < |builders| ==> (j in completing <==> Hears(j).None?);
        }
      } else if Outcome().0.trace == FullTrace() {
        assert Insert(FullBatch()) in FullTrace();
        if centre == [] {
          assert exists i :: 0 <= i < |builders| && Obstructs(i);
          ObstructedSaveNeverInserts(Insert(FullBatch()));
        } else {
          assert Descent(0)[..k] == Descent(0);
          var j: nat :| j < |builders| && Hears(j).Some?;
          CompletingFromTrace(completing, j);
        }
      }
    }

    lemma CompletingFromTrace(completing: set<nat>, j: nat)
      requires j < |builders|
      requires Descent(0) + [Insert(FullBatch())] + Mirror(Descent(0), completing) == FullTrace()
      ensures j in completing
    {
      var down, up := Descent(0) + [Insert(FullBatch())], Mirror(Descent(0), completing);
      assert up == (down + up)[|down|..] == Mirror(Descent(0), AllBuilders());
      DescentHas(0);
      MirrorHas(Descent(0), completing);
      MirrorHas(Descent(0), AllBuilders());
    }

    // ----- hooks that pass errors on

    /** The hook never turns an error into success. */
    static ghost predicate KeepsErrors(hook: Hook<M, E>) {
      match hook
      case Skips(result) => result.Some?
      case Wraps(_, _, answer) => forall e: Option<E> :: e.Some? ==> answer(e).Some?
    }

    ghost predicate AllKeepErrors() {
      forall i, h :: 0 <= i < |builders| && 0 <= h < |builders[i].hooks| ==> KeepsErrors(builders[i].hooks[h])
    }

    /** The hook fails although `next` succeeded. */
    static predicate FailsAfter(hook: Hook<M, E>) {
      hook.Wraps? && hook.answer(None).Some?
    }

    ghost predicate HasAfter(i: nat)
      requires i < |builders|
    {
      exists h :: 0 <= h < |builders[i].hooks| && FailsAfter(builders[i].hooks[h])
    }

    /** A hook of builder i, from hook h on, returns an error whatever `next` does. */
    ghost predicate ErrorFrom(i: nat, h: nat)
      requires i < |builders|
    {
      exists k :: h <= k < |builders[i].hooks| && (builders[i].hooks[k].Skips? || FailsAfter(builders[i].hooks[k]))
    }

    lemma ErrorFromStep(i: nat, h: nat)
      requires i < |builders| && h < |builders[i].hooks|
      ensures ErrorFrom(i, h) <==>
        builders[i].hooks[h].Skips? || FailsAfter(builders[i].hooks[h]) || ErrorFrom(i, h + 1)
    {
    }

    lemma KeptErrorsStep(i: nat, h: nat, e: Option<E>)
      requires i < |builders| && h < |builders[i].hooks| && KeepsErrors(builders[i].hooks[h])
      ensures Report(i, h, e).Some? <==>
        builders[i].hooks[h].Skips? || FailsAfter(builders[i].hooks[h]) || Report(i, h + 1, e).Some?
    {
    }

    lemma {:induction false} KeptErrors(i: nat, h: nat, e: Option<E>)
      requires i < |builders| && h <= |builders[i].hooks|
      requires forall k :: h <= k < |builders[i].hooks| ==> KeepsErrors(builders[i].hooks[k])
      ensures Report(i, h, e).Some? <==> ErrorFrom(i, h) || check(Checked(i)).Some? || Heard(i, e).Some?
      decreases |builders[i].hooks| - h
    {
      if h < |builders[i].hooks| {
        KeptErrorsStep(i, h, e);
        ErrorFromStep(i, h);
        KeptErrors(i, h + 1, e);
      }
    }

    lemma KeptReturns(i: nat)
      requires AllKeepErrors() && i < |builders|
      ensures Returns(i).Some? <==> Obstructs(i) || HasAfter(i) || Hears(i).Some?
    {
      KeptErrors(i, 0, Answer());
    }

    /** A hook of a builder behind j fails after success. */
    ghost predicate AfterBehind(j: nat) {
      exists i :: j < i < |builders| && HasAfter(i)
    }

    lemma AfterBehindStep(j: nat)
      requires j + 1 < |builders|
      ensures AfterBehind(j) <==> HasAfter(j + 1) || AfterBehind(j + 1)
    {
      if AfterBehind(j) {
        var i: nat :| j < i < |builders| && HasAfter(i);
        assert i == j + 1 || AfterBehind(j + 1);
      }
      if AfterBehind(j + 1) {
        var i: nat :| j + 1 < i < |builders| && HasAfter(i);
        assert AfterBehind(j);
      }
    }

    lemma KeptHearsStep(j: nat)
      requires AllKeepErrors() && j + 1 < |builders|
      ensures Hears(j).Some? <==> Obstructs(j + 1) || HasAfter(j + 1) || Hears(j + 1).Some?
    {
      KeptReturns(j + 1);
    }

    lemma ObstructsNext(j: nat)
      requires j + 1 < |builders| && j < Depth(0, 0)
      ensures Obstructs(j + 1) <==> Depth(0, 0) == j + 1
    {
      StopsAtFirstObstacle();
    }

    /** With such hooks, builder j hears an error of the obstacle, of the insert, or of a later hook. */
    lemma {:induction false} KeptHears(j: nat)
      requires builders != [] && AllKeepErrors() && j < Depth(0, 0)
      ensures Hears(j).Some? <==> Depth(0, 0) < |builders| || Answer().Some? || AfterBehind(j)
      decreases |builders| - j
    {
      if j + 1 == |builders| {
        assert Hears(j) == Answer() && !AfterBehind(j);
      } else {
        KeptHearsStep(j);
        ObstructsNext(j);
        if j + 1 < Depth(0, 0) {
          AfterBehindStep(j);
          KeptHears(j + 1);
        }
      }
    }

    lemma KeptTurns(j: nat)
      requires builders != [] && AllKeepErrors() && j < Depth(0, 0)
      ensures Turns(j) <==> HasAfter(j) && !AfterBehind(j) && Depth(0, 0) == |builders| && Answer().None?
    {
      KeptReturns(j);
      KeptHears(j);
      StopsAtFirstObstacle();
    }

    /**
      With hooks that never drop an error, a save is all-or-nothing exactly when something obstructs it,
      the insert fails, or no hook fails after its success.
    */
    lemma KeptErrorsMakeItAllOrNothing()
      requires builders != [] && AllKeepErrors()
      ensures AllOrNothing(Outcome().0, Outcome().1) <==>
        || (exists i :: 0 <= i < |builders| && Obstructs(i))
        || insert(FullBatch()).Failed?
        || forall i :: 0 <= i < |builders| ==> !HasAfter(i)
    {
      var d, n := Depth(0, 0), |builders|;
      SaveIsAllOrNothing();
      assert d < n <==> exists i :: 0 <= i < n && Obstructs(i) by { StopsAtFirstObstacle(); }
      assert d < n ==> Returns(d).Some? by {
        StopsAtFirstObstacle();
        if d < n { KeptReturns(d); }
      }
      forall j | 0 <= j < d
        ensures Turns(j) <==> HasAfter(j) && !AfterBehind(j) && d == n && Answer().None?
      {
        KeptTurns(j);
      }
      if d == n && exists i :: 0 <= i < n && HasAfter(i) {
        var last := LastAfter(n);
        assert !AfterBehind(last);
      }
    }

    lemma {:induction false} LastAfter(n: nat) returns (i: nat)
      requires n <= |builders| && exists i :: 0 <= i < n && HasAfter(i)
      ensures i < n && HasAfter(i) && forall k :: i < k < n ==> !HasAfter(k)
    {
      i := n - 1;
      if !HasAfter(i) { i := LastAfter(n - 1); }
    }

    /** With such hooks, success means that everything is saved and the events follow the full plan. */
    lemma SuccessfulSaveIsWellNested()
      requires builders != [] && AllKeepErrors() && Outcome().1.None?
      ensures EverythingSaved(Outcome().0) && Outcome().0.trace == FullTrace()
    {
      SaveBehaves();
      KeptReturns(0);
      StopsAtFirstObstacle();
      assert Depth(0, 0) > 0;
      KeptHears(0);
      forall j | 0 <= j < |builders|
        ensures Hears(j).None?
      {
        KeptHears(j);
      }
      EverythingSavedIff();
      WellNestedIff();
    }

    /** With such hooks, the mutations left marked by a failure after the insert are exactly a final stretch. */
    lemma LateFailureMarksASuffix(j: nat)
      requires j < |builders| && AllKeepErrors()
      requires (forall i :: 0 <= i < |builders| ==> !Obstructs(i)) && insert(FullBatch()).Inserted?
      ensures Outcome().0.done[j] <==> forall i :: j < i < |builders| ==> !HasAfter(i)
    {
      StopsAtFirstObstacle();
      MarkedIff(j);
      KeptHears(j);
    }

    // ----- what is checked and what is saved

    /** The builder's mutation with its defaults, edited by its first k hooks. */
    function Edited(i: nat, k: nat): M
      requires i < |builders| && k <= |builders[i].hooks|
    {
      if k == 0 then defaults(builders[i].mutation)
      else
        match builders[i].hooks[k - 1]
        case Skips(_) => Edited(i, k - 1)
        case Wraps(edit, _, _) => edit(Edited(i, k - 1))
    }

    /** How many of the first h hooks come before the first one that passes on a copy. */
    function InPlace(i: nat, h: nat): (k: nat)
      requires i < |builders| && h <= |builders[i].hooks|
      ensures k <= h
    {
      if h == 0 then 0
      else
        var k, hook := InPlace(i, h - 1), builders[i].hooks[h - 1];
        if k == h - 1 && (hook.Skips? || hook.inPlace) then h else k
    }

    lemma {:induction false} MidIsEdited(i: nat, h: nat)
      requires i < |builders| && h <= |builders[i].hooks|
      ensures
        var (own, p) := Mid(i, h);
        && own == Edited(i, InPlace(i, h))
        && (if p.Own? then own else p.m) == Edited(i, h)
        && (p.Own? <==> InPlace(i, h) == h)
    {
      if h > 0 { MidIsEdited(i, h - 1); }
    }

    /**
      `check` sees the edits of the hooks in front of the first one that passes on a copy, while the
      mutation that is saved has the edits of all hooks.
    */
    lemma CheckSeesOwnMutation(i: nat)
      requires i < |builders|
      ensures
        var n := |builders[i].hooks|;
        Checked(i) == Edited(i, InPlace(i, n)) && Saved(i) == Edited(i, n)
      ensures (forall h :: 0 <= h < |builders[i].hooks| ==> builders[i].hooks[h].Skips? || builders[i].hooks[h].inPlace)
        ==> Checked(i) == Saved(i)
    {
      MidIsEdited(i, |builders[i].hooks|);
      AllInPlace(i, |builders[i].hooks|);
    }

    lemma {:induction false} AllInPlace(i: nat, h: nat)
      requires i < |builders| && h <= |builders[i].hooks|
      ensures (forall k :: 0 <= k < h ==> builders[i].hooks[k].Skips? || builders[i].hooks[k].inPlace) <==>
        InPlace(i, h) == h
    {
      if h > 0 { AllInPlace(i, h - 1); }
    }

    ghost predicate Unobstructed() {
      forall i :: 0 <= i < |builders| ==> !Obstructs(i)
    }

    lemma {:induction false} MidIgnoresCheck(c: M -> Option<E>, i: nat, h: nat)
      requires i < |builders| && h <= |builders[i].hooks|
      ensures this.(check := c).Mid(i, h) == Mid(i, h)
    {
      if h > 0 { MidIgnoresCheck(c, i, h - 1); }
    }

    /** What a save inserts for builder i has passed the check, if it was among the checked mutations. */
    lemma InsertedWasChecked(i: nat)
      requires i < |builders| && Unobstructed()
      requires exists j :: 0 <= j < |builders| && Checked(j) == Saved(i)
      ensures check(Saved(i)).None? && FullBatch()[i] == Some(Spec(build(Saved(i)).1, None))
    {
      var j :| 0 <= j < |builders| && Checked(j) == Saved(i);
      assert !Obstructs(j);
    }

    /** Otherwise there is a check that would have rejected it and yet lets the whole save through. */
    lemma UncheckedCanBeInserted(i: nat, e: E) returns (c: M -> Option<E>)
      requires i < |builders| && forall j :: 0 <= j < |builders| ==> !HasSkip(j)
      requires forall j :: 0 <= j < |builders| ==> Checked(j) != Saved(i)
      ensures this.(check := c).Unobstructed() && c(Saved(i)) == Some(e) && this.(check := c).Saved(i) == Saved(i)
    {
      var bad := Saved(i);
      c := m => if m == bad then Some(e) else None;
      var other := this.(check := c);
      forall j | 0 <= j < |builders|
        ensures other.Checked(j) == Checked(j) && other.Saved(j) == Saved(j)
      {
        MidIgnoresCheck(c, j, |builders[j].hooks|);
      }
      forall j | 0 <= j < |builders|
        ensures !other.Obstructs(j)
      {
        assert other.HasSkip(j) <==> HasSkip(j);
      }
    }
  }

  // ----- saves that are not all-or-nothing, or insert what was not checked

  type Numbers = Bulk<int, int, int, int>

  /** Mutation 1 is the one that `check` rejects, and every insert succeeds. */
  function NumbersOf(builders: seq<Builder<int, int>>): Numbers {
    Bulk(builders, m => m, m => if m == 1 then Some(1) else None, m => (m, m), specs => Inserted(j => Some(7)))
  }

  /** A hook that fails after the insert: the caller gets an error, and the mutation is marked. */
  lemma LateErrorLeavesAMark() returns (bulk: Numbers)
    ensures bulk.builders != [] && bulk.AllKeepErrors()
    ensures bulk.Outcome().1.Some? && bulk.Outcome().0.done == [true]
  {
    var hook: Hook<int, int> := Wraps(m => m, true, e => Some(2));
    bulk := NumbersOf([Builder(0, [hook])]);
    assert bulk.Mid(0, 1) == (0, Own);
    assert bulk.Depth(0, 1) == 1;
    bulk.SaveBehaves();
    bulk.SavedBuilder(0);
  }

  /**
    A hook that drops the error of a failed check: the caller gets success, the builder in front is
    marked, and nothing was inserted.
  */
  lemma DroppedErrorLooksLikeSuccess() returns (bulk: Numbers)
    ensures bulk.builders != [] && bulk.Outcome().1.None? && bulk.Outcome().0.done == [true, false]
    ensures forall e :: e in bulk.Outcome().0.trace ==> !e.Insert?
  {
    var hook: Hook<int, int> := Wraps(m => m, true, e => None);
    bulk := NumbersOf([Builder(0, []), Builder(1, [hook])]);
    assert bulk.Mid(0, 0) == (0, Own) && bulk.Mid(1, 1) == (1, Own);
    assert bulk.Depth(1, 1) == 1 && bulk.Depth(1, 0) == 1 && bulk.Depth(0, 0) == 1;
    assert bulk.Report(1, 0, bulk.Answer()) == None;
    bulk.SaveBehaves();
    bulk.SavedBuilder(0);
    bulk.SavedBuilder(1);
    assert bulk.Obstructs(1);
    forall e | e in bulk.Outcome().0.trace
      ensures !e.Insert?
    {
      bulk.ObstructedSaveNeverInserts(e);
    }
  }

  /** A hook that passes on a copy: everything is saved although `check` rejects what was inserted. */
  lemma CopyEscapesCheck() returns (bulk: Numbers)
    ensures bulk.builders != [] && bulk.AllKeepErrors()
    ensures bulk.Outcome().1.None? && bulk.EverythingSaved(bulk.Outcome().0) && bulk.check(bulk.Saved(0)).Some?
  {
    var hook: Hook<int, int> := Wraps(m => 1, false, e => e);
    bulk := NumbersOf([Builder(0, [hook])]);
    assert bulk.Mid(0, 1) == (0, Other(1));
    assert bulk.Depth(0, 1) == 1;
    assert bulk.Report(0, 1, bulk.Answer()) == None;
    bulk.SaveBehaves();
    bulk.EverythingSavedIff();
  }

  /** The builder's own loop and nested calls, over its mutable slices. */
  class BulkSave<M(0), N, S, E(!new)> {
    const bulk: Bulk<M, N, S, E>
    var mutations: seq<M>
    var specs: seq<Option<Spec<S>>>
    var nodes: seq<Option<Node<N>>>
    var pointsAt: seq<Option<nat>>
    var done: seq<bool>
    var trace: seq<Event<S>>

    ghost function View(): State<M, N, S>
      reads this
    {
      State(mutations, specs, nodes, pointsAt, done, trace)
    }

    constructor (bulk: Bulk<M, N, S, E>)
      ensures this.bulk == bulk && trace == []
      ensures mutations == seq(|bulk.builders|, i requires 0 <= i < |bulk.builders| => bulk.builders[i].mutation)
      ensures pointsAt == seq(|bulk.builders|, i => None) && done == seq(|bulk.builders|, i => false)
    {
      this.bulk := bulk;
      var n := |bulk.builders|;
      mutations := seq(n, i requires 0 <= i < n => bulk.builders[i].mutation);
      specs, nodes := [], [];
      pointsAt, done, trace := seq(n, i => None), seq(n, i => false), [];
    }

    /** The hooks of builder i from hook h on, around its mutator. */
    method Mutate(i: nat, h: nat, p: Passed<M>) returns (err: Option<E>)
      requires View().Sized(|bulk.builders|) && i < |bulk.builders| && h <= |bulk.builders[i].hooks|
      modifies this
      ensures (View(), err) == bulk.Mutate(old(View()), i, h, p)
      decreases |bulk.builders| - i, |bulk.builders[i].hooks| - h + 1
    {
      if h == |bulk.builders[i].hooks| {
        err := MutateInner(i, p);
        return;
      }
      var hook := bulk.builders[i].hooks[h];
      trace := trace + [EnterHook(i, h)];
      if hook.Skips? {
        trace := trace + [ExitHook(i, h)];
        return hook.result;
      }
      var edited := hook.edit(if p.Own? then mutations[i] else p.m);
      if p.Own? && hook.inPlace {
        mutations := mutations[i := edited];
        err := Mutate(i, h + 1, Own);
      } else {
        err := Mutate(i, h + 1, Other(edited));
      }
      trace := trace + [ExitHook(i, h)];
      err := hook.answer(err);
    }

    /** The mutator of builder i itself. */
    method MutateInner(i: nat, p: Passed<M>) returns (err: Option<E>)
      requires View().Sized(|bulk.builders|) && i < |bulk.builders|
      modifies this
      ensures (View(), err) == bulk.Mutate(old(View()), i, |bulk.builders[i].hooks|, p)
      decreases |bulk.builders| - i, 0
    {
      trace := trace + [Check(i)];
      err := bulk.check(mutations[i]);
      if err.Some? {
        return;
      }
      mutations := mutations[i := if p.Own? then mutations[i] else p.m];
      var (body, fields) := bulk.build(mutations[i]);
      nodes := nodes[i := Some(Node(0, body))];
      specs := specs[i := Some(Spec(fields, None))];
      trace := trace + [Build(i)];
      if i + 1 < |bulk.builders| {
        err := Mutate(i + 1, 0, Own);
      } else {
        err := BatchCreate();
      }
      if err.None? {
        Complete(i);
      }
    }

    method BatchCreate() returns (err: Option<E>)
      modifies this
      ensures (View(), err) == bulk.BatchCreate(old(View()))
    {
      trace := trace + [Insert(specs)];
      match bulk.insert(specs) {
        case Failed(e) => err := Some(e);
        case Inserted(ids) =>
          specs := WithIds(specs, ids);
          err := None;
      }
    }

    method Complete(i: nat)
      requires View().Sized(|bulk.builders|) && i < |bulk.builders|
      modifies this
      ensures View() == bulk.Complete(old(View()), i)
    {
      pointsAt := pointsAt[i := Some(i)];
      if nodes[i].Some? && specs[i].Some? && specs[i].value.id.Some? {
        nodes := nodes[i := Some(nodes[i].value.(id := specs[i].value.id.value))];
      }
      done := done[i := true];
      trace := trace + [Done(i)];
    }

    /** `pending` is an error recorded on the bulk builder before the save. */
    method Save(pending: Option<E>) returns (r: Result<seq<Option<Node<N>>>, E>)
      requires mutations == seq(|bulk.builders|, i requires 0 <= i < |bulk.builders| => bulk.builders[i].mutation)
      requires pointsAt == seq(|bulk.builders|, i => None) && done == seq(|bulk.builders|, i => false) && trace == []
      modifies this
      ensures pending.Some? ==> r == Err(pending.value) && View() == old(View())
      ensures pending.None? && bulk.builders == [] ==> r == Ok([]) && trace == []
      ensures pending.None? && bulk.builders != [] ==>
        && View() == bulk.Outcome().0
        && r == if bulk.Outcome().1.Some? then Err(bulk.Outcome().1.value) else Ok(View().nodes)
    {
      if pending.Some? {
        return Err(pending.value);
      }
      var n := |bulk.builders|;
      specs, nodes := seq(n, i => None), seq(n, i => None);
      for i := 0 to n
        invariant |mutations| == n
        invariant forall j :: 0 <= j < n ==>
          mutations[j] == if j < i then bulk.defaults(bulk.builders[j].mutation) else bulk.builders[j].mutation
        invariant specs == seq(n, i => None) && nodes == seq(n, i => None)
        invariant pointsAt == old(pointsAt) && done == old(done) && trace == []
      {
        mutations := mutations[i := bulk.defaults(mutations[i])];
      }
      if n > 0 {
        assert View() == bulk.Start();
        var err := Mutate(0, 0, Own);
        if err.Some? {
          return Err(err.value);
        }
      }
      return Ok(nodes);
    }
  }
}
