/** Tokens and payloads over any number of sockets of any backends: who may release a buffer, and how often. */
module Tokens {
  import opened Bags

  const ID_LIMIT: nat := 0x1_0000_0000

  datatype Token = Token(idx: int, len: nat, pool: nat)

  /** A socket with its context: the backend it is of, and how many contexts of that backend were created before. */
  datatype Socket = Socket(backend: nat, number: nat)

  /** A payload owns its token and borrows context `ctx`. */
  datatype Payload = Payload(token: Token, ctx: Socket)

  /** The pool id of the `n`-th context of a backend: each backend has a 32-bit counter of its own. */
  function PoolId(n: nat): nat { n % ID_LIMIT }

  function CheckToken(token: Token, ctx: Socket): bool { token.pool == PoolId(ctx.number) }

  /** `packet`, `None` standing for the panic. */
  function Packet(token: Token, ctx: Socket): Option<Payload> {
    if CheckToken(token, ctx) then Some(Payload(token, ctx)) else None
  }

  /**
    `serial` numbers the receives.  `live` are the tokens the program holds, `payloads` the payloads, `gone`
    the serials of tokens dropped without being consumed, `released` the calls of `release` with their context.
  */
  datatype Numbered = Numbered(serial: nat, token: Token)
  datatype Lent = Lent(serial: nat, payload: Payload)
  datatype World = World(sockets: seq<Socket>, received: seq<(nat, Token)>, live: seq<Numbered>, payloads: seq<Lent>,
    released: seq<Lent>, gone: seq<nat>)

  datatype Event =
    | Open(backend: nat)
    | Receive(socket: nat, idx: int, len: nat)
    | Consume(i: nat, ctx: nat)
    | Construct(i: nat, ctx: nat)
    | Duplicate(i: nat)
    | ReleaseDesc(i: nat, ctx: nat)
    | IntoToken(i: nat)
    | DropPayload(i: nat)
    | DropToken(i: nat)

  predicate Enabled(w: World, e: Event) {
    match e
    case Open(_) => true
    case Receive(s, _, _) => s < |w.sockets|
    case Consume(i, ctx) => i < |w.live| && ctx < |w.sockets|
    case Construct(i, ctx) => i < |w.live| && ctx < |w.sockets|
    case Duplicate(i) => i < |w.live|
    case ReleaseDesc(i, ctx) => i < |w.live| && ctx < |w.sockets|
    case IntoToken(i) => i < |w.payloads|
    case DropPayload(i) => i < |w.payloads|
    case DropToken(i) => i < |w.live|
  }

  /** How many contexts of a backend were created. */
  function Created(sockets: seq<Socket>, backend: nat): nat {
    Count(sockets, OfBackend(backend))
  }

  function OfBackend(backend: nat): Socket -> bool { (s: Socket) => s.backend == backend }

  function Step(w: World, e: Event): World
    requires Enabled(w, e)
  {
    match e
    case Open(b) => w.(sockets := w.sockets + [Socket(b, Created(w.sockets, b))])
    case Receive(s, idx, len) =>
      var token := Token(idx, len, PoolId(w.sockets[s].number));
      w.(received := w.received + [(s, token)], live := w.live + [Numbered(|w.received|, token)])
    case Consume(i, ctx) =>
      var w' := w.(live := Drop(w.live, i));
      var serial := w.live[i].serial;
      (match Packet(w.live[i].token, w.sockets[ctx])
       case Some(payload) => w'.(payloads := w.payloads + [Lent(serial, payload)])
       case None => w'.(gone := w.gone + [serial]))
    case Construct(i, ctx) =>
      w.(live := Drop(w.live, i), payloads := w.payloads + [Lent(w.live[i].serial, Payload(w.live[i].token, w.sockets[ctx]))])
    case Duplicate(i) => w.(live := w.live + [w.live[i]])
    case ReleaseDesc(i, ctx) =>
      w.(released := w.released + [Lent(w.live[i].serial, Payload(w.live[i].token, w.sockets[ctx]))])
    case IntoToken(i) =>
      w.(payloads := Drop(w.payloads, i),
         live := w.live + [Numbered(w.payloads[i].serial, w.payloads[i].payload.token)])
    case DropPayload(i) =>
      w.(payloads := Drop(w.payloads, i), released := w.released + [w.payloads[i]])
    case DropToken(i) => w.(live := Drop(w.live, i), gone := w.gone + [w.live[i].serial])
  }

  predicate Legal(w: World, es: seq<Event>)
    decreases |es|
  {
    es == [] || (Enabled(w, es[0]) && Legal(Step(w, es[0]), es[1..]))
  }

  function Exec(w: World, es: seq<Event>): World
    requires Legal(w, es)
    decreases |es|
  {
    if es == [] then w else Exec(Step(w, es[0]), es[1..])
  }

  function Start(): World { World([], [], [], [], [], []) }

  // ----- linearity -------------------------------------------------------------------------------------

  function LentIs(serial: nat): Lent -> bool { (l: Lent) => l.serial == serial }
  function LiveIs(serial: nat): Numbered -> bool { (l: Numbered) => l.serial == serial }
  function GoneIs(serial: nat): nat -> bool { s => s == serial }

  /** How often the buffer of receive number `serial` is held by, or has left, the program. */
  function Owners(w: World, serial: nat): nat {
    Count(w.live, LiveIs(serial)) + Count(w.payloads, LentIs(serial))
      + Count(w.released, LentIs(serial)) + Count(w.gone, GoneIs(serial))
  }

  /** The steps that make a second owner: a copy of a token, and a release by hand of a token still held. */
  predicate Copies(e: Event) { e.Duplicate? || e.ReleaseDesc? }

  function Fresh(w: World, e: Event, serial: nat): nat
    requires Enabled(w, e)
  {
    match e
    case Receive(_, _, _) => if serial == |w.received| then 1 else 0
    case Duplicate(i) => if w.live[i].serial == serial then 1 else 0
    case ReleaseDesc(i, _) => if w.live[i].serial == serial then 1 else 0
    case _ => 0
  }

  lemma StepOwners(w: World, e: Event, serial: nat)
    requires Enabled(w, e)
    ensures Owners(Step(w, e), serial) == Owners(w, serial) + Fresh(w, e, serial)
  {
    match e
    case Open(_) =>
    case Receive(s, idx, len) =>
      CountSnoc(w.live, Numbered(|w.received|, Token(idx, len, PoolId(w.sockets[s].number))), LiveIs(serial));
    case Consume(i, ctx) => ConsumeOwners(w, i, ctx, serial);
    case Construct(i, ctx) => ConstructOwners(w, i, ctx, serial);
    case Duplicate(i) => CountSnoc(w.live, w.live[i], LiveIs(serial));
    case ReleaseDesc(i, ctx) =>
      CountSnoc(w.released, Lent(w.live[i].serial, Payload(w.live[i].token, w.sockets[ctx])), LentIs(serial));
    case IntoToken(i) =>
      CountAt(w.payloads, i, LentIs(serial));
      CountSnoc(w.live, Numbered(w.payloads[i].serial, w.payloads[i].payload.token), LiveIs(serial));
    case DropPayload(i) =>
      CountAt(w.payloads, i, LentIs(serial));
      CountSnoc(w.released, w.payloads[i], LentIs(serial));
    case DropToken(i) =>
      CountAt(w.live, i, LiveIs(serial));
      CountSnoc(w.gone, w.live[i].serial, GoneIs(serial));
  }

  lemma ConsumeOwners(w: World, i: nat, ctx: nat, serial: nat)
    requires Enabled(w, Consume(i, ctx))
    ensures Owners(Step(w, Consume(i, ctx)), serial) == Owners(w, serial)
  {
    CountAt(w.live, i, LiveIs(serial));
    var s := w.live[i].serial;
    match Packet(w.live[i].token, w.sockets[ctx])
    case Some(payload) => CountSnoc(w.payloads, Lent(s, payload), LentIs(serial));
    case None => CountSnoc(w.gone, s, GoneIs(serial));
  }

  lemma ConstructOwners(w: World, i: nat, ctx: nat, serial: nat)
    requires Enabled(w, Construct(i, ctx))
    ensures Owners(Step(w, Construct(i, ctx)), serial) == Owners(w, serial)
  {
    CountAt(w.live, i, LiveIs(serial));
    CountSnoc(w.payloads, Lent(w.live[i].serial, Payload(w.live[i].token, w.sockets[ctx])), LentIs(serial));
  }

  /** Every receive of the state has exactly one owner, and nothing else has any. */
  ghost predicate OneOwnerEach(w: World) {
    forall serial: nat :: Owners(w, serial) == if serial < |w.received| then 1 else 0
  }

  lemma {:induction false} OneOwnerIff(w: World, e: Event)
    requires Enabled(w, e) && OneOwnerEach(w)
    ensures OneOwnerEach(Step(w, e)) <==> !Copies(e)
  {
    hide Owners;
    var w' := Step(w, e);
    forall serial: nat ensures Owners(w', serial) == Owners(w, serial) + Fresh(w, e, serial) { StepOwners(w, e, serial); }
    if Copies(e) { SecondOwner(w, e, w.live[e.i].serial); }
  }

  lemma SecondOwner(w: World, e: Event, serial: nat)
    requires Enabled(w, e) && Copies(e) && serial == w.live[e.i].serial
    ensures Owners(Step(w, e), serial) >= 2
  {
    StepOwners(w, e, serial);
    CountAt(w.live, e.i, LiveIs(serial));
  }

  /** Once a receive has two owners it always has. */
  lemma {:induction false} OwnersGrow(w: World, es: seq<Event>, serial: nat)
    requires Legal(w, es)
    ensures Owners(Exec(w, es), serial) >= Owners(w, serial)
    decreases |es|
  {
    hide Step, Enabled;
    if es != [] {
      StepOwners(w, es[0], serial);
      OwnersGrow(Step(w, es[0]), es[1..], serial);
    }
  }

  predicate NoCopies(es: seq<Event>) { forall k :: 0 <= k < |es| ==> !Copies(es[k]) }

  lemma {:induction false} RunOneOwnerIff(w: World, es: seq<Event>)
    requires Legal(w, es) && OneOwnerEach(w)
    ensures OneOwnerEach(Exec(w, es)) <==> NoCopies(es)
    decreases |es|
  {
    hide Step, Enabled, Owners, Copies;
    if es != [] {
      var w' := Step(w, es[0]);
      OneOwnerIff(w, es[0]);
      assert es == [es[0]] + es[1..];
      if Copies(es[0]) { TwoOwnersStay(w, es); } else { RunOneOwnerIff(w', es[1..]); }
    }
  }

  lemma {:induction false} TwoOwnersStay(w: World, es: seq<Event>)
    requires Legal(w, es) && es != [] && Copies(es[0])
    ensures !OneOwnerEach(Exec(w, es))
  {
    var serial := w.live[es[0].i].serial;
    SecondOwner(w, es[0], serial);
    OwnersGrow(Step(w, es[0]), es[1..], serial);
    hide Owners, Step;
    assert Owners(Exec(w, es), serial) >= 2;
  }

  /** After a run every receive has exactly one owner if and only if the run copied no token and released none by hand. */
  lemma {:induction false} OneOwnerIffNoCopies(es: seq<Event>)
    requires Legal(Start(), es)
    ensures OneOwnerEach(Exec(Start(), es)) <==> NoCopies(es)
  {
    RunOneOwnerIff(Start(), es);
  }

  /**
    Linearity: after any run without such copies the buffer of every receive is in exactly one of: a token, a
    payload, released, gone with a dropped token.  It is therefore released at most once, and exactly once when
    neither the program holds it nor a token was dropped.
  */
  lemma {:induction false} ReleasedAtMostOnce(es: seq<Event>, serial: nat)
    requires Legal(Start(), es) && NoCopies(es) && serial < |Exec(Start(), es).received|
    ensures var w := Exec(Start(), es);
      && Owners(w, serial) == 1
      && Count(w.released, LentIs(serial)) <= 1
      && (Count(w.released, LentIs(serial)) == 1 <==>
            Count(w.live, LiveIs(serial)) == 0 && Count(w.payloads, LentIs(serial)) == 0
            && Count(w.gone, GoneIs(serial)) == 0)
  {
    OneOwnerIffNoCopies(es);
  }

  // ----- isolation -------------------------------------------------------------------------------------

  /** `token` is the token of some receive, unchanged. */
  ghost predicate Genuine(w: World, serial: nat, token: Token) {
    serial < |w.received| && token == w.received[serial].1
  }

  ghost predicate GenuineLent(w: World, l: Lent) {
    Genuine(w, l.serial, l.payload.token) && l.payload.ctx in w.sockets
  }

  /** Sockets are numbered in the order of their creation, backend by backend. */
  ghost predicate Numbers(sockets: seq<Socket>) {
    forall k :: 0 <= k < |sockets| ==> sockets[k].number == Created(sockets[..k], sockets[k].backend)
  }

  ghost predicate Inv(w: World) {
    && Numbers(w.sockets)
    && (forall k :: 0 <= k < |w.received| ==>
          w.received[k].0 < |w.sockets| && w.received[k].1.pool == PoolId(w.sockets[w.received[k].0].number))
    && (forall k :: 0 <= k < |w.live| ==> Genuine(w, w.live[k].serial, w.live[k].token))
    && (forall k :: 0 <= k < |w.payloads| ==> GenuineLent(w, w.payloads[k]))
    && (forall k :: 0 <= k < |w.released| ==> GenuineLent(w, w.released[k]))
  }

  lemma OpenInv(w: World, b: nat)
    requires Inv(w)
    ensures Inv(Step(w, Open(b)))
  {
    var sockets := Step(w, Open(b)).sockets;
    hide Created;
    forall k | 0 <= k < |sockets| ensures sockets[k].number == Created(sockets[..k], sockets[k].backend) {
      if k < |w.sockets| { assert sockets[..k] == w.sockets[..k]; } else { assert sockets[..k] == w.sockets; }
    }
  }

  lemma StepInv(w: World, e: Event)
    requires Inv(w) && Enabled(w, e)
    ensures Inv(Step(w, e))
  {
    hide Created, Numbers;
    if e.Open? {
      OpenInv(w, e.backend);
    } else if e.Consume? || e.Construct? || e.Duplicate? || e.ReleaseDesc? {
      LiveStepInv(w, e);
    } else if e.IntoToken? || e.DropPayload? {
      PayloadStepInv(w, e);
    }
  }

  lemma LiveStepInv(w: World, e: Event)
    requires Inv(w) && Enabled(w, e) && (e.Consume? || e.Construct? || e.Duplicate? || e.ReleaseDesc?)
    ensures Inv(Step(w, e))
  {
    hide Created, Numbers;
    var w', x := Step(w, e), w.live[e.i];
    assert Genuine(w, x.serial, x.token);
    assert forall k :: 0 <= k < |w'.live| ==> w'.live[k] in w.live;
    assert forall y :: y in w.live ==> Genuine(w, y.serial, y.token);
  }

  lemma PayloadStepInv(w: World, e: Event)
    requires Inv(w) && Enabled(w, e) && (e.IntoToken? || e.DropPayload?)
    ensures Inv(Step(w, e))
  {
    hide Created, Numbers;
    assert GenuineLent(w, w.payloads[e.i]);
  }

  lemma {:induction false} RunInv(w: World, es: seq<Event>)
    requires Inv(w) && Legal(w, es)
    ensures Inv(Exec(w, es))
    decreases |es|
  {
    if es != [] {
      StepInv(w, es[0]);
      RunInv(Step(w, es[0]), es[1..]);
    }
  }

  // ----- unchecked payloads ----------------------------------------------------------------------------

  ghost predicate Agrees(l: Lent) { CheckToken(l.payload.token, l.payload.ctx) }

  /** Every payload and every release has a context with the pool id of its token. */
  ghost predicate Agreeing(w: World) {
    && (forall k :: 0 <= k < |w.payloads| ==> Agrees(w.payloads[k]))
    && (forall k :: 0 <= k < |w.released| ==> Agrees(w.released[k]))
  }

  /** A payload built without the check, or a release by hand, uses a context for which the check would have succeeded. */
  predicate CarefulStep(w: World, e: Event)
    requires Enabled(w, e)
  {
    match e
    case Construct(i, ctx) => CheckToken(w.live[i].token, w.sockets[ctx])
    case ReleaseDesc(i, ctx) => CheckToken(w.live[i].token, w.sockets[ctx])
    case _ => true
  }

  predicate Careful(w: World, es: seq<Event>)
    requires Legal(w, es)
    decreases |es|
  {
    es == [] || (CarefulStep(w, es[0]) && Careful(Step(w, es[0]), es[1..]))
  }

  lemma AgreeingIff(w: World, e: Event)
    requires Enabled(w, e) && Agreeing(w)
    ensures Agreeing(Step(w, e)) <==> CarefulStep(w, e)
  {
    var w' := Step(w, e);
    if e.Construct? { assert w'.payloads[|w.payloads|].payload == Payload(w.live[e.i].token, w.sockets[e.ctx]); }
    if e.ReleaseDesc? { assert w'.released[|w.released|].payload == Payload(w.live[e.i].token, w.sockets[e.ctx]); }
  }

  /** Every state of the run is such a state. */
  ghost predicate AlwaysAgreeing(w: World, es: seq<Event>)
    requires Legal(w, es)
    decreases |es|
  {
    Agreeing(w) && (es != [] ==> AlwaysAgreeing(Step(w, es[0]), es[1..]))
  }

  lemma {:induction false} RunAgreeingIff(w: World, es: seq<Event>)
    requires Legal(w, es) && Agreeing(w)
    ensures AlwaysAgreeing(w, es) <==> Careful(w, es)
    ensures Careful(w, es) ==> Agreeing(Exec(w, es))
    decreases |es|
  {
    hide Step, Enabled, CarefulStep, Agreeing;
    if es != [] {
      AgreeingIff(w, es[0]);
      if CarefulStep(w, es[0]) { RunAgreeingIff(Step(w, es[0]), es[1..]); }
    }
  }

  /**
    Throughout a run every payload and every release has an agreeing context if and only if every payload built
    without the check, and every release by hand, used a context that passes the check.
  */
  lemma {:induction false} AlwaysAgreeingIffCareful(es: seq<Event>)
    requires Legal(Start(), es)
    ensures AlwaysAgreeing(Start(), es) <==> Careful(Start(), es)
  {
    RunAgreeingIff(Start(), es);
  }

  /** Dropping the payload after an unchecked construction releases to an agreeing context if and only if the check passes. */
  lemma {:induction false} ConstructThenDrop(w: World, i: nat, ctx: nat)
    requires Enabled(w, Construct(i, ctx))
    ensures var w' := Step(Step(w, Construct(i, ctx)), DropPayload(|w.payloads|));
      && w'.released == w.released + [Lent(w.live[i].serial, Payload(w.live[i].token, w.sockets[ctx]))]
      && (Agrees(w'.released[|w.released|]) <==> CheckToken(w.live[i].token, w.sockets[ctx]))
  {}

  /** For example a buffer received on the first socket of a backend is released to the second. */
  lemma {:induction false} UncheckedReleasesElsewhere(idx: int, len: nat)
    ensures var es := [Open(0), Open(0), Receive(0, idx, len), Construct(0, 1), DropPayload(0)];
      Legal(Start(), es)
      && Exec(Start(), es).released == [Lent(0, Payload(Token(idx, len, 0), Socket(0, 1)))]
  {
    var w1 := Step(Start(), Open(0));
    assert w1.sockets == [Socket(0, 0)];
    CountSnoc([], Socket(0, 0), OfBackend(0));
    assert [] + [Socket(0, 0)] == [Socket(0, 0)];
    var w2 := Step(w1, Open(0));
    assert w2.sockets == [Socket(0, 0), Socket(0, 1)];
    var w3 := Step(w2, Receive(0, idx, len));
    var w4 := Step(w3, Construct(0, 1));
    assert w4.payloads == [Lent(0, Payload(Token(idx, len, 0), Socket(0, 1)))];
    var w5 := Step(w4, DropPayload(0));
    Begin(w4, DropPayload(0), [], w5);
    Begin(w3, Construct(0, 1), [DropPayload(0)], w4);
    Begin(w2, Receive(0, idx, len), [Construct(0, 1), DropPayload(0)], w3);
    Begin(w1, Open(0), [Receive(0, idx, len), Construct(0, 1), DropPayload(0)], w2);
    Begin(Start(), Open(0), [Open(0), Receive(0, idx, len), Construct(0, 1), DropPayload(0)], w1);
  }

  // ----- pool ids --------------------------------------------------------------------------------------

  /** Two contexts have the same pool id exactly when the numbers they have in their backends differ by a multiple of 2^32. */
  lemma SamePool(i: nat, j: nat)
    ensures PoolId(i) == PoolId(j) <==> (i - j) % ID_LIMIT == 0
  {}

  lemma NumberIs(sockets: seq<Socket>, k: nat)
    requires Numbers(sockets) && k < |sockets|
    ensures sockets[k].number == Created(sockets[..k], sockets[k].backend)
  {}

  /** Sockets of one backend have different numbers. */
  lemma {:induction false} NumbersDiffer(sockets: seq<Socket>, i: nat, j: nat)
    requires Numbers(sockets) && i < j < |sockets| && sockets[i].backend == sockets[j].backend
    ensures sockets[i].number < sockets[j].number
  {
    var b := sockets[i].backend;
    hide Numbers, Count;
    NumberIs(sockets, i);
    NumberIs(sockets, j);
    assert sockets[..j] == sockets[..i + 1] + sockets[i + 1..j];
    CountConcat(sockets[..i + 1], sockets[i + 1..j], OfBackend(b));
    assert sockets[..i + 1] == sockets[..i] + [sockets[i]];
    CountSnoc(sockets[..i], sockets[i], OfBackend(b));
  }

  lemma {:induction false} NumberBelow(sockets: seq<Socket>, i: nat)
    requires Numbers(sockets) && i < |sockets|
    ensures sockets[i].number <= i
  {
    CountAtMost(sockets[..i], OfBackend(sockets[i].backend));
  }

  lemma {:induction false} CountAtMost(s: seq<Socket>, p: Socket -> bool)
    ensures Count(s, p) <= |s|
  {
    if s != [] { CountAtMost(s[..|s| - 1], p); }
  }

  /**
    A context accepts a token the program holds if and only if its number in its backend differs from that of the
    socket which received it in its own backend by a multiple of 2^32: the backend itself is not looked at.
  */
  lemma {:induction false} AcceptedIff(es: seq<Event>, k: nat, j: nat)
    requires Legal(Start(), es) && k < |Exec(Start(), es).live| && j < |Exec(Start(), es).sockets|
    ensures var w := Exec(Start(), es); var n := w.live[k];
      && n.serial < |w.received| && w.received[n.serial].0 < |w.sockets|
      && (Packet(n.token, w.sockets[j]).Some? <==>
            (w.sockets[w.received[n.serial].0].number - w.sockets[j].number) % ID_LIMIT == 0)
  {
    hide Created, Legal, Exec;
    RunInv(Start(), es);
    var w := Exec(Start(), es);
    var n := w.live[k];
    hide Numbers;
    assert Genuine(w, n.serial, n.token);
    SamePool(w.sockets[w.received[n.serial].0].number, w.sockets[j].number);
  }

  /** For example the first contexts of two backends accept each other's tokens. */
  lemma FirstContextsCollide(idx: int, len: nat)
    ensures var es := [Open(0), Open(1), Receive(0, idx, len), Consume(0, 1), DropPayload(0)];
      Legal(Start(), es)
      && Exec(Start(), es).released == [Lent(0, Payload(Token(idx, len, 0), Socket(1, 0)))]
  {
    var w1 := Step(Start(), Open(0));
    assert w1.sockets == [Socket(0, 0)];
    CountSnoc([], Socket(0, 0), OfBackend(1));
    assert [] + [Socket(0, 0)] == [Socket(0, 0)];
    var w2 := Step(w1, Open(1));
    assert w2.sockets == [Socket(0, 0), Socket(1, 0)];
    var w3 := Step(w2, Receive(0, idx, len));
    var w4 := Step(w3, Consume(0, 1));
    assert w4.payloads == [Lent(0, Payload(Token(idx, len, 0), Socket(1, 0)))];
    var w5 := Step(w4, DropPayload(0));
    Begin(w4, DropPayload(0), [], w5);
    Begin(w3, Consume(0, 1), [DropPayload(0)], w4);
    Begin(w2, Receive(0, idx, len), [Consume(0, 1), DropPayload(0)], w3);
    Begin(w1, Open(1), [Receive(0, idx, len), Consume(0, 1), DropPayload(0)], w2);
    Begin(Start(), Open(0), [Open(1), Receive(0, idx, len), Consume(0, 1), DropPayload(0)], w1);
  }

  lemma Begin(w: World, e: Event, rest: seq<Event>, w': World)
    requires Enabled(w, e) && w' == Step(w, e) && Legal(w', rest)
    ensures Legal(w, [e] + rest) && Exec(w, [e] + rest) == Exec(w', rest)
  {
    assert ([e] + rest)[1..] == rest;
  }

  lemma CloseNumbers(a: nat, b: nat)
    requires a < ID_LIMIT && b < ID_LIMIT && (a - b) % ID_LIMIT == 0
    ensures a == b
  {
    SamePool(a, b);
  }

  /**
    Pool isolation: over careful runs a buffer is only ever released to a context whose number agrees modulo 2^32
    with that of the socket that received it; with at most 2^32 sockets and a context of the same backend, only to
    that very socket.
  */
  lemma {:induction false} ReleasedToOwnPool(es: seq<Event>, k: nat)
    requires Legal(Start(), es) && Careful(Start(), es) && k < |Exec(Start(), es).released|
    ensures var w := Exec(Start(), es); var l := w.released[k];
      && l.serial < |w.received| && w.received[l.serial].0 < |w.sockets|
      && l.payload.token == w.received[l.serial].1 && l.payload.ctx in w.sockets
      && var own := w.sockets[w.received[l.serial].0];
         && (l.payload.ctx.number - own.number) % ID_LIMIT == 0
         && (|w.sockets| <= ID_LIMIT && l.payload.ctx.backend == own.backend ==> l.payload.ctx == own)
  {
    hide Created, Legal, Careful;
    RunInv(Start(), es);
    RunAgreeingIff(Start(), es);
    var w := Exec(Start(), es);
    var l := w.released[k];
    assert GenuineLent(w, l) && Agrees(l);
    var i := w.received[l.serial].0;
    var j :| 0 <= j < |w.sockets| && w.sockets[j] == l.payload.ctx;
    SamePool(l.payload.ctx.number, w.sockets[i].number);
    NumberBelow(w.sockets, i);
    NumberBelow(w.sockets, j);
    if |w.sockets| <= ID_LIMIT { CloseNumbers(w.sockets[j].number, w.sockets[i].number); }
  }

  /** The sockets of one backend are told apart by their numbers, so this is the very socket that received it. */
  lemma {:induction false} OwnSocketIsUnique(es: seq<Event>, i: nat, j: nat)
    requires Legal(Start(), es) && i < |Exec(Start(), es).sockets| && j < |Exec(Start(), es).sockets|
    ensures var sockets := Exec(Start(), es).sockets; sockets[i] == sockets[j] ==> i == j
  {
    RunInv(Start(), es);
    var sockets := Exec(Start(), es).sockets;
    if i < j && sockets[i].backend == sockets[j].backend { NumbersDiffer(sockets, i, j); }
    if j < i && sockets[i].backend == sockets[j].backend { NumbersDiffer(sockets, j, i); }
  }

  /** A counter wraps: a later context of the same backend accepts the tokens of an earlier one. */
  lemma WrappedIdsCollide(n: nat, backend: nat, idx: int, len: nat)
    ensures Packet(Token(idx, len, PoolId(n)), Socket(backend, n + ID_LIMIT)).Some?
  {
    SamePool(n, n + ID_LIMIT);
  }

  /**
    Converting a payload to a token and consuming it again with the same context gives the payload back, if the
    context agrees; a payload built without the check may not come back.
  */
  lemma {:induction false} IntoTokenRoundTrip(w: World, i: nat, ctx: nat)
    requires Inv(w) && i < |w.payloads| && ctx < |w.sockets| && w.sockets[ctx] == w.payloads[i].payload.ctx
    ensures var w1 := Step(w, IntoToken(i)); var w2 := Step(w1, Consume(|w.live|, ctx));
      && w2.live == w.live && w2.released == w.released
      && (if Agrees(w.payloads[i]) then w2.payloads == Drop(w.payloads, i) + [w.payloads[i]] && w2.gone == w.gone
          else w2.payloads == Drop(w.payloads, i) && w2.gone == w.gone + [w.payloads[i].serial])
  {
    hide Inv;
    var w1 := Step(w, IntoToken(i));
    assert w1.live[|w.live|] == Numbered(w.payloads[i].serial, w.payloads[i].payload.token);
    assert Drop(w1.live, |w.live|) == w.live;
  }
}
