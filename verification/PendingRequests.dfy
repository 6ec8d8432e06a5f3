/** Requests in flight to a language server: who gets which reply, whatever the interleaving. */
module PendingRequests {
  import opened Wrappers

  type Id = nat
  type Payload = string

  /** What is sent down a request's channel: a reply, or that the stream has ended. */
  datatype Message = Reply(payload: Payload) | Exited

  datatype Outcome = Answer(message: Message) | TimedOut | WriteFailed

  // ---- the life of each request ------------------------------------------------------------------------

  /**
    A request has an id, then waits in the table. It is told something, by way
    of the reader's last list when the stream has ended, or its requester stops
    listening and is still to withdraw it. Then it is over.
   */
  datatype Life = Numbered | Waiting | Leaving | Told(message: Message) | Expired | Done(outcome: Outcome)

  /** `ended`: the reader has left its loop. */
  datatype World = World(nextId: Id, alive: bool, ended: bool, lives: map<Id, Life>)

  const START := World(1, true, false, map[])

  /** What a thread does at once. A reply arrives when it is sent down the channel. */
  datatype Step =
    | Begin
    | Enlist(id: Id)
    | FailWrite(id: Id)
    | Arrive(id: Id, payload: Payload)
    | EndOfStream
    | TellEnd(id: Id)
    | Collect(id: Id)
    | Expire(id: Id)
    | Withdraw(id: Id)
    | BreakPipe

  ghost predicate Is(w: World, id: Id, life: Life) {
    id in w.lives && w.lives[id] == life
  }

  /** The requester has enlisted and not heard anything it would act on. */
  ghost predicate Unheard(w: World, id: Id) {
    Is(w, id, Waiting) || Is(w, id, Leaving)
  }

  ghost predicate IsTold(w: World, id: Id) {
    id in w.lives && w.lives[id].Told?
  }

  ghost predicate IsDone(w: World, id: Id) {
    id in w.lives && w.lives[id].Done?
  }

  /** The request's channel exists: its requester has not ended yet. */
  ghost predicate Listening(w: World, id: Id) {
    Unheard(w, id) || IsTold(w, id) || Is(w, id, Expired)
  }

  /** The lives when the reader takes the whole table. */
  ghost function Swept(lives: map<Id, Life>): map<Id, Life> {
    map id | id in lives :: if lives[id].Waiting? then Leaving else lives[id]
  }

  ghost function Become(w: World, id: Id, life: Life): World {
    w.(lives := w.lives[id := life])
  }

  /** One step of some thread; a step that is not possible changes nothing. */
  ghost function Next(w: World, step: Step): World {
    match step
    case Begin => if w.alive then Become(w, w.nextId, Numbered).(nextId := w.nextId + 1) else w
    case Enlist(id) => if Is(w, id, Numbered) then Become(w, id, Waiting) else w
    case FailWrite(id) =>
      if Unheard(w, id) || IsTold(w, id) then Become(w, id, Done(WriteFailed)).(alive := false) else w
    case Arrive(id, payload) => if !w.ended && Is(w, id, Waiting) then Become(w, id, Told(Reply(payload))) else w
    case EndOfStream => if w.ended then w else w.(alive := false, ended := true, lives := Swept(w.lives))
    case TellEnd(id) => if Is(w, id, Leaving) then Become(w, id, Told(Exited)) else w
    case Collect(id) => if IsTold(w, id) then Become(w, id, Done(Answer(w.lives[id].message))) else w
    case Expire(id) => if Unheard(w, id) then Become(w, id, Expired) else w
    case Withdraw(id) => if Is(w, id, Expired) then Become(w, id, Done(TimedOut)) else w
    case BreakPipe => w.(alive := false)
  }

  ghost function RunOf(steps: seq<Step>): World {
    if steps == [] then START else Next(RunOf(steps[..|steps| - 1]), steps[|steps| - 1])
  }

  ghost function At(steps: seq<Step>, k: nat): World
    requires k <= |steps|
  {
    RunOf(steps[..k])
  }

  /** The `k`-th step is a reply to `id` that finds the request waiting and its requester listening. */
  ghost predicate Delivery(steps: seq<Step>, k: nat, id: Id, payload: Payload) {
    k < |steps| && steps[k] == Arrive(id, payload) && !At(steps, k).ended && Is(At(steps, k), id, Waiting)
  }

  ghost predicate Given(w: World, id: Id, message: Message) {
    Is(w, id, Told(message)) || Is(w, id, Done(Answer(message)))
  }

  /** The write of request `id` is reported failed at step `j`. */
  ghost predicate FailsAt(steps: seq<Step>, j: nat, id: Id) {
    j < |steps| && steps[j] == FailWrite(id) && (Unheard(At(steps, j), id) || IsTold(At(steps, j), id))
  }

  // ---- what every interleaving keeps -----------------------------------------------------------------------

  lemma {:induction false} IdsBelowNext(steps: seq<Step>, id: Id)
    ensures RunOf(steps).nextId >= 1 && (id in RunOf(steps).lives <==> 1 <= id < RunOf(steps).nextId)
  {
    if steps != [] {
      IdsBelowNext(steps[..|steps| - 1], id);
    }
  }

  /** How far along its life a request is: it never goes back. */
  ghost function Rank(w: World, id: Id): nat {
    if id !in w.lives then 0
    else
      match w.lives[id]
      case Numbered => 1
      case Waiting => 2
      case Leaving => 3
      case Told(_) => 4
      case Expired => 4
      case Done(_) => 5
  }

  lemma {:induction false} OneStepOn(w: World, step: Step, id: Id)
    requires id in w.lives ==> id < w.nextId
    ensures Rank(w, id) <= Rank(Next(w, step), id)
    ensures Rank(w, id) == Rank(Next(w, step), id) > 0 ==> w.lives[id] == Next(w, step).lives[id]
  {
  }

  /** Only steps that move a request along change its life at all. */
  lemma {:induction false} LifeGoesOn(steps: seq<Step>, k: nat, id: Id)
    requires k <= |steps|
    ensures Rank(At(steps, k), id) <= Rank(RunOf(steps), id)
    ensures Rank(At(steps, k), id) == Rank(RunOf(steps), id) > 0 ==> At(steps, k).lives[id] == RunOf(steps).lives[id]
    decreases |steps|
  {
    hide Next;
    if k == |steps| {
      assert steps[..k] == steps;
    } else {
      var before := steps[..|steps| - 1];
      assert before[..k] == steps[..k];
      LifeGoesOn(before, k, id);
      IdsBelowNext(before, id);
      OneStepOn(RunOf(before), steps[|steps| - 1], id);
    }
  }

  /** No reply is given out twice, and no request is given two: it finds a request waiting at most once. */
  lemma {:induction false} DeliveredOnce(steps: seq<Step>, j: nat, k: nat, id: Id, first: Payload, second: Payload)
    requires Delivery(steps, j, id, first) && Delivery(steps, k, id, second)
    ensures j == k && first == second
  {
    hide RunOf;
    if j != k {
      var low, high := if j < k then j else k, if j < k then k else j;
      AfterStep(steps, low);
      assert steps[..high][..low + 1] == steps[..low + 1];
      LifeGoesOn(steps[..high], low + 1, id);
    }
  }

  lemma {:induction false} AfterStep(steps: seq<Step>, k: nat)
    requires k < |steps|
    ensures At(steps, k + 1) == Next(At(steps, k), steps[k])
  {
    assert steps[..k + 1][..k] == steps[..k];
  }

  /** What holds at one time and is kept by every step holds from then on. */
  lemma {:induction false} Stays(steps: seq<Step>, k: nat, n: nat, p: World -> bool)
    requires k <= n <= |steps| && p(At(steps, k))
    requires forall i :: k <= i < n && p(At(steps, i)) ==> p(Next(At(steps, i), steps[i]))
    ensures p(At(steps, n))
  {
    hide Next, RunOf;
    if k < n {
      Stays(steps, k, n - 1, p);
      AfterStep(steps, n - 1);
    }
  }

  /** What does not hold at the start and holds now came to hold at some step, and has held ever since. */
  lemma {:induction false} CameToHold(steps: seq<Step>, n: nat, p: World -> bool) returns (k: nat)
    requires n <= |steps| && !p(START) && p(At(steps, n))
    ensures k < n && !p(At(steps, k)) && p(Next(At(steps, k), steps[k]))
    ensures forall i :: k < i <= n ==> p(At(steps, i))
  {
    hide Next, RunOf;
    if n == 0 {
      AtStart(steps);
    } else {
      AfterStep(steps, n - 1);
      if p(At(steps, n - 1)) {
        k := CameToHold(steps, n - 1, p);
      } else {
        k := n - 1;
      }
    }
  }

  lemma {:induction false} AtStart(steps: seq<Step>)
    ensures At(steps, 0) == START
  {
  }

  lemma {:induction false} AtEnd(steps: seq<Step>)
    ensures At(steps, |steps|) == RunOf(steps)
  {
    assert steps[..|steps|] == steps;
  }

  /** The ids in use are below the next one, so none is handed out again. */
  ghost predicate Numbering(w: World, id: Id) {
    id in w.lives ==> id < w.nextId
  }

  lemma {:induction false} AlwaysNumbered(steps: seq<Step>, id: Id)
    ensures forall i :: 0 <= i <= |steps| ==> Numbering(At(steps, i), id)
  {
    forall i | 0 <= i <= |steps|
      ensures Numbering(At(steps, i), id)
    {
      IdsBelowNext(steps[..i], id);
    }
  }

  // ---- the client ---------------------------------------------------------------------------------------

  ghost predicate Kills(steps: seq<Step>, k: nat) {
    k < |steps| && (steps[k] == BreakPipe || steps[k] == EndOfStream
                    || (steps[k].FailWrite? && FailsAt(steps, k, steps[k].id)))
  }

  /** The reader has left its loop if and only if the stream has ended. */
  lemma {:induction false} EndedIff(steps: seq<Step>)
    ensures RunOf(steps).ended <==> EndOfStream in steps
  {
    if steps != [] {
      EndedIff(steps[..|steps| - 1]);
      assert steps == steps[..|steps| - 1] + [steps[|steps| - 1]];
    }
  }

  lemma {:induction false} OneStepAlive(w: World, step: Step)
    ensures Next(w, step).alive <==>
            && w.alive && step != BreakPipe && !(step == EndOfStream && !w.ended)
            && !(step.FailWrite? && (Unheard(w, step.id) || IsTold(w, step.id)))
  {
  }

  /** The client is alive until the stream ends or a write fails, and never again. */
  lemma {:induction false} AliveIff(steps: seq<Step>)
    ensures RunOf(steps).alive <==> forall k: nat :: !Kills(steps, k)
  {
    hide Next, Unheard, IsTold;
    if steps == [] {
      AtStart(steps);
      assert forall k: nat :: !Kills(steps, k);
    } else {
      var last := |steps| - 1;
      var before := steps[..last];
      AliveIff(before);
      EndedIff(before);
      OneStepAlive(RunOf(before), steps[last]);
      forall k: nat
        ensures Kills(steps, k) <==> Kills(before, k) || (k == last && Kills(steps, last))
      {
        if k < last {
          assert before[..k] == steps[..k];
        }
      }
      if EndOfStream in before {
        var k: nat :| k < last && before[k] == EndOfStream;
        assert Kills(before, k);
      }
      assert RunOf(steps).alive <==> RunOf(before).alive && !Kills(steps, last);
    }
  }

  // ---- replies ------------------------------------------------------------------------------------------

  lemma {:induction false} OneStepGiven(w: World, step: Step, id: Id, message: Message)
    requires Numbering(w, id) && Given(w, id, message)
    ensures Given(Next(w, step), id, message) <==> step != FailWrite(id) || !IsTold(w, id)
  {
  }

  /** What a request was given it keeps, unless its write is reported failed. */
  lemma {:induction false} GivenStays(steps: seq<Step>, k: nat, id: Id, message: Message)
    requires k <= |steps| && Given(At(steps, k), id, message)
    requires forall i :: k <= i ==> !FailsAt(steps, i, id)
    ensures Given(RunOf(steps), id, message)
  {
    hide Next, RunOf, Given, IsTold;
    AlwaysNumbered(steps, id);
    var p := (w: World) => Given(w, id, message);
    forall i | k <= i < |steps| && p(At(steps, i))
      ensures p(Next(At(steps, i), steps[i]))
    {
      OneStepGiven(At(steps, i), steps[i], id, message);
      assert !FailsAt(steps, i, id);
    }
    Stays(steps, k, |steps|, p);
    AtEnd(steps);
  }

  /** Since it was given something, the request's write has not been reported failed. */
  lemma {:induction false} NotFailedSince(steps: seq<Step>, k: nat, id: Id, message: Message)
    requires forall i :: k < i <= |steps| ==> Given(At(steps, i), id, message)
    ensures forall i :: k < i ==> !FailsAt(steps, i, id)
  {
    hide Next, RunOf;
    forall i: nat | k < i < |steps|
      ensures !FailsAt(steps, i, id)
    {
      var next := i + 1;
      AfterStep(steps, i);
      AlwaysNumbered(steps, id);
      OneStepGiven(At(steps, i), steps[i], id, message);
      assert Given(At(steps, i), id, message) && Given(At(steps, next), id, message);
    }
  }

  /** How a request comes to be given something. */
  lemma {:induction false} GivingStep(w: World, step: Step, id: Id, message: Message)
    requires Numbering(w, id) && !Given(w, id, message) && Given(Next(w, step), id, message)
    ensures match message
            case Reply(payload) => step == Arrive(id, payload) && !w.ended && Is(w, id, Waiting)
            case Exited => step == TellEnd(id) && Is(w, id, Leaving)
  {
  }

  /**
    Over every interleaving: a request is given a reply exactly when that reply,
    carrying the request's own id, arrived while the request was waiting and
    its requester listening, and its write was not reported failed afterwards.
   */
  lemma {:induction false} GivenIff(steps: seq<Step>, id: Id, payload: Payload)
    ensures Given(RunOf(steps), id, Reply(payload)) <==>
            exists k :: Delivery(steps, k, id, payload) && forall j :: k < j ==> !FailsAt(steps, j, id)
  {
    hide Next, RunOf, Given;
    var message := Reply(payload);
    if Given(RunOf(steps), id, message) {
      AtEnd(steps);
      NothingAtStart(id, message);
      var k := CameToHold(steps, |steps|, (w: World) => Given(w, id, message));
      AlwaysNumbered(steps, id);
      GivingStep(At(steps, k), steps[k], id, message);
      NotFailedSince(steps, k, id, message);
      assert Delivery(steps, k, id, payload);
    }
    if k: nat :| Delivery(steps, k, id, payload) && forall j :: k < j ==> !FailsAt(steps, j, id) {
      DeliveryGives(steps, k, id, payload);
      GivenStays(steps, k + 1, id, message);
    }
  }

  lemma {:induction false} NothingAtStart(id: Id, message: Message)
    ensures !Given(START, id, message)
  {
  }

  lemma {:induction false} DeliveryGives(steps: seq<Step>, k: nat, id: Id, payload: Payload)
    requires Delivery(steps, k, id, payload)
    ensures Given(At(steps, k + 1), id, Reply(payload))
  {
    hide RunOf;
    AfterStep(steps, k);
  }

  /** A reply that comes when the requester has stopped listening is lost, even if the table still has the request. */
  lemma {:induction false} ExpiredTimesOut(steps: seq<Step>, k: nat, id: Id)
    requires k <= |steps| && Is(At(steps, k), id, Expired)
    ensures Is(RunOf(steps), id, Expired) || Is(RunOf(steps), id, Done(TimedOut))
  {
    hide Next, RunOf, Is;
    AlwaysNumbered(steps, id);
    var p := (w: World) => Is(w, id, Expired) || Is(w, id, Done(TimedOut));
    forall i | k <= i < |steps| && p(At(steps, i))
      ensures p(Next(At(steps, i), steps[i]))
    {
      OneStepExpired(At(steps, i), steps[i], id);
    }
    Stays(steps, k, |steps|, p);
    AtEnd(steps);
  }

  lemma {:induction false} OneStepExpired(w: World, step: Step, id: Id)
    requires Numbering(w, id) && (Is(w, id, Expired) || Is(w, id, Done(TimedOut)))
    ensures Is(Next(w, step), id, Expired) || Is(Next(w, step), id, Done(TimedOut))
  {
  }

  // ---- the end of the stream ------------------------------------------------------------------------------

  /** The `j`-th step ends the stream and finds the request waiting. */
  ghost predicate SweptAt(steps: seq<Step>, j: nat, id: Id) {
    j < |steps| && steps[j] == EndOfStream && !At(steps, j).ended && Is(At(steps, j), id, Waiting)
  }

  /** Swept at `j` and told at `k`, its requester listening in between. */
  ghost predicate EndTold(steps: seq<Step>, j: nat, k: nat, id: Id) {
    && j < k < |steps| && SweptAt(steps, j, id) && steps[k] == TellEnd(id)
    && forall i :: j < i < k ==> steps[i] != Expire(id)
  }

  lemma {:induction false} SweepingStep(w: World, step: Step, id: Id)
    requires Numbering(w, id) && !Is(w, id, Leaving) && Is(Next(w, step), id, Leaving)
    ensures step == EndOfStream && !w.ended && Is(w, id, Waiting)
  {
  }

  lemma {:induction false} OneStepLeaving(w: World, step: Step, id: Id)
    requires Numbering(w, id) && Is(w, id, Leaving)
    ensures step == TellEnd(id) ==> Given(Next(w, step), id, Exited)
    ensures step == Expire(id) ==> Is(Next(w, step), id, Expired)
    ensures step != TellEnd(id) && step != Expire(id) && step != FailWrite(id) ==> Is(Next(w, step), id, Leaving)
  {
  }

  lemma {:induction false} ListenedSince(steps: seq<Step>, j: nat, k: nat, id: Id)
    requires k <= |steps| && forall i :: j < i <= k ==> Is(At(steps, i), id, Leaving)
    ensures forall i :: j < i < k ==> steps[i] != Expire(id)
  {
    hide Next, RunOf;
    AlwaysNumbered(steps, id);
    forall i: nat | j < i < k
      ensures steps[i] != Expire(id)
    {
      var next := i + 1;
      AfterStep(steps, i);
      OneStepLeaving(At(steps, i), steps[i], id);
      assert Is(At(steps, i), id, Leaving) && Is(At(steps, next), id, Leaving);
    }
  }

  lemma {:induction false} SweptStays(steps: seq<Step>, j: nat, k: nat, id: Id)
    requires j < k <= |steps| && SweptAt(steps, j, id)
    requires forall i :: j < i < k ==> steps[i] != Expire(id)
    requires forall i :: j < i ==> !FailsAt(steps, i, id)
    ensures Is(At(steps, k), id, Leaving) || Given(At(steps, k), id, Exited)
  {
    hide RunOf, Next, Given, IsTold;
    AlwaysNumbered(steps, id);
    var p := (w: World) => Is(w, id, Leaving) || Given(w, id, Exited);
    SweepLeaves(steps, j, id);
    forall i | j + 1 <= i < k && p(At(steps, i))
      ensures p(Next(At(steps, i), steps[i]))
    {
      assert !FailsAt(steps, i, id);
      if Is(At(steps, i), id, Leaving) {
        OneStepLeaving(At(steps, i), steps[i], id);
      } else {
        OneStepGiven(At(steps, i), steps[i], id, Exited);
      }
    }
    Stays(steps, j + 1, k, p);
  }

  lemma {:induction false} SweepLeaves(steps: seq<Step>, j: nat, id: Id)
    requires SweptAt(steps, j, id)
    ensures Is(At(steps, j + 1), id, Leaving)
  {
    hide RunOf;
    AfterStep(steps, j);
  }

  /**
    Over every interleaving: a request is told that the stream has ended exactly
    when it was waiting at the end, the reader came to it on its list before its
    requester stopped listening, and its write was not reported failed.
   */
  lemma {:induction false} EndTellsEveryone(steps: seq<Step>, id: Id)
    ensures Given(RunOf(steps), id, Exited) <==>
            exists j, k :: EndTold(steps, j, k, id) && forall i :: j < i ==> !FailsAt(steps, i, id)
  {
    hide Next, RunOf, Given, IsTold;
    if Given(RunOf(steps), id, Exited) {
      AtEnd(steps);
      NothingAtStart(id, Exited);
      AlwaysNumbered(steps, id);
      var k := CameToHold(steps, |steps|, (w: World) => Given(w, id, Exited));
      GivingStep(At(steps, k), steps[k], id, Exited);
      var j := CameToHold(steps, k, (w: World) => Is(w, id, Leaving));
      SweepingStep(At(steps, j), steps[j], id);
      ListenedSince(steps, j, k, id);
      NotFailedSince(steps, k, id, Exited);
      NotFailedLeaving(steps, j, k, id);
      assert EndTold(steps, j, k, id);
    }
    if j: nat, k: nat :| EndTold(steps, j, k, id) && forall i :: j < i ==> !FailsAt(steps, i, id) {
      TellingGives(steps, j, k, id);
      GivenStays(steps, k + 1, id, Exited);
    }
  }

  lemma {:induction false} NotFailedLeaving(steps: seq<Step>, j: nat, k: nat, id: Id)
    requires k < |steps| && steps[k] == TellEnd(id) && forall i :: j < i <= k ==> Is(At(steps, i), id, Leaving)
    ensures forall i :: j < i <= k ==> !FailsAt(steps, i, id)
  {
    hide RunOf;
    forall i: nat | j < i < k
      ensures !FailsAt(steps, i, id)
    {
      var next := i + 1;
      AfterStep(steps, i);
      assert Is(At(steps, i), id, Leaving) && Is(At(steps, next), id, Leaving);
    }
  }

  lemma {:induction false} TellingGives(steps: seq<Step>, j: nat, k: nat, id: Id)
    requires EndTold(steps, j, k, id) && forall i :: j < i ==> !FailsAt(steps, i, id)
    ensures Given(At(steps, k + 1), id, Exited)
  {
    hide RunOf, Next, Given, IsTold;
    SweptStays(steps, j, k, id);
    AfterStep(steps, k);
    AlwaysNumbered(steps, id);
    if Is(At(steps, k), id, Leaving) {
      OneStepLeaving(At(steps, k), steps[k], id);
    } else {
      OneStepGiven(At(steps, k), steps[k], id, Exited);
    }
  }

  /** Enlisted at step `k`, when the reader had left its loop. */
  ghost predicate EnlistedLate(steps: seq<Step>, k: nat, id: Id) {
    k < |steps| && steps[k] == Enlist(id) && At(steps, k).ended && Is(At(steps, k), id, Numbered)
  }

  ghost predicate LeftAlone(w: World, id: Id) {
    Is(w, id, Waiting) || Is(w, id, Expired) || Is(w, id, Done(TimedOut)) || Is(w, id, Done(WriteFailed))
  }

  lemma {:induction false} OneStepAlone(w: World, step: Step, id: Id)
    requires Numbering(w, id) && w.ended && LeftAlone(w, id)
    ensures Next(w, step).ended && LeftAlone(Next(w, step), id)
  {
  }

  /**
    Over every interleaving: a request that enlists after the stream has ended
    is told nothing. It waits, times out, or learns that it could not be written.
   */
  lemma {:induction false} LateRequestWaitsAlone(steps: seq<Step>, k: nat, id: Id)
    requires EnlistedLate(steps, k, id)
    ensures LeftAlone(RunOf(steps), id)
  {
    hide Next, RunOf, LeftAlone;
    AlwaysNumbered(steps, id);
    var p := (w: World) => w.ended && LeftAlone(w, id);
    EnlistsLate(steps, k, id);
    forall i | k + 1 <= i < |steps| && p(At(steps, i))
      ensures p(Next(At(steps, i), steps[i]))
    {
      OneStepAlone(At(steps, i), steps[i], id);
    }
    Stays(steps, k + 1, |steps|, p);
    AtEnd(steps);
  }

  lemma {:induction false} EnlistsLate(steps: seq<Step>, k: nat, id: Id)
    requires EnlistedLate(steps, k, id)
    ensures At(steps, k + 1).ended && LeftAlone(At(steps, k + 1), id)
  {
    hide RunOf;
    AfterStep(steps, k);
  }

  /** Such a run: the request looks at a live client, the stream ends, and the request enlists. */
  lemma {:induction false} LateRequest()
    ensures EnlistedLate([Begin, EndOfStream, Enlist(1)], 2, 1)
  {
    var steps := [Begin, EndOfStream, Enlist(1)];
    AtStart(steps);
    AfterStep(steps, 0);
    AfterStep(steps, 1);
  }

  // ---- the table -----------------------------------------------------------------------------------------------

  class Table {
    var nextId: Id
    /** Ids handed out whose requesters have not enlisted yet: a local variable of each. */
    var numbered: set<Id>
    /** Requests whose reply is still awaited by the reader side. */
    var pending: set<Id>
    /** Requests the reader has still to tell of the end: a local variable of its own. */
    var leaving: set<Id>
    /** Requests whose requesters have stopped listening and not withdrawn them yet: a local state of each. */
    var expired: set<Id>
    /** Each request's channel, from its registration until its requester is done. */
    var channels: map<Id, seq<Message>>
    var alive: bool
    /** The reader has left its loop. */
    var ended: bool

    /** Every request's life so far. */
    ghost var world: World

    constructor ()
      ensures Valid() && world == START
    {
      nextId, numbered, pending, leaving, expired := 1, {}, {}, {}, {};
      channels, alive, ended := map[], true, false;
      world := START;
    }

    /**
      Where a request stands in its life, and where it is found. One whose
      requester has stopped listening may be in the table, or on the reader's list.
     */
    ghost predicate Fits(id: Id)
      reads this
    {
      && (id in world.lives ==> id < nextId)
      && (id in numbered <==> Is(world, id, Numbered))
      && (id in expired <==> Is(world, id, Life.Expired))
      && (Is(world, id, Waiting) ==> id in pending)
      && (id in pending ==> Is(world, id, Waiting) || Is(world, id, Life.Expired))
      && (Is(world, id, Leaving) ==> id in leaving)
      && (id in leaving ==> Is(world, id, Leaving) || Is(world, id, Life.Expired) || IsDone(world, id))
      && (id in channels <==> Listening(world, id))
      && (Unheard(world, id) ==> channels[id] == [])
      && (IsTold(world, id) ==> channels[id] == [world.lives[id].message])
    }

    ghost predicate Valid()
      reads this
    {
      && nextId == world.nextId && alive == world.alive && ended == world.ended
      && forall id :: Fits(id)
    }

    /** A live client hands out a fresh id. */
    method Start() returns (id: Option<Id>)
      requires Valid()
      modifies this
      ensures Valid() && world == Next(old(world), Begin)
      ensures id == if old(world).alive then Some(old(world).nextId) else None
    {
      if !alive {
        return None;
      }
      id := Some(nextId);
      world := Next(world, Begin);
      numbered := numbered + {nextId};
      nextId := nextId + 1;
      forall q: Id
        ensures Fits(q)
      {
        assert old(Fits(q));
      }
    }

    /** The request goes into the table, before it is written. */
    method Register(id: Id)
      requires Valid() && id in numbered
      modifies this
      ensures Valid() && world == Next(old(world), Step.Enlist(id))
    {
      assert Fits(id);
      world := Next(world, Step.Enlist(id));
      numbered := numbered - {id};
      pending := pending + {id};
      channels := channels[id := []];
      forall q: Id
        ensures Fits(q)
      {
        assert old(Fits(q));
      }
    }

    /** The request could not be written. */
    method GiveUp(id: Id)
      requires Valid() && id in channels && id !in expired
      modifies this
      ensures Valid() && world == Next(old(world), Step.FailWrite(id))
    {
      assert Fits(id);
      world := Next(world, Step.FailWrite(id));
      pending := pending - {id};
      channels := channels - {id};
      alive := false;
      forall q: Id
        ensures Fits(q)
      {
        assert old(Fits(q));
      }
    }

    /** A reply arrives. */
    method Handle(id: Id, payload: Payload)
      requires Valid() && !ended
      modifies this
      ensures Valid() && world == Next(old(world), Step.Arrive(id, payload))
    {
      assert Fits(id);
      world := Next(world, Step.Arrive(id, payload));
      if id !in pending {
        return;
      }
      pending := pending - {id};
      channels := channels[id := channels[id] + [Reply(payload)]];
      forall q: Id
        ensures Fits(q)
      {
        assert old(Fits(q));
      }
    }

    static lemma {:induction false} SweptLives(w: World)
      requires !w.ended
      ensures var after := Next(w, EndOfStream);
              && after.nextId == w.nextId && !after.alive && after.ended && after.lives.Keys == w.lives.Keys
              && forall id :: id in w.lives ==> after.lives[id] == if w.lives[id].Waiting? then Leaving else w.lives[id]
    {
    }

    /** The stream ends: the reader takes every pending request. */
    method Drain()
      requires Valid() && !ended
      modifies this
      ensures Valid() && world == Next(old(world), EndOfStream)
      ensures pending == {}
    {
      hide Next, Swept;
      SweptLives(world);
      alive, ended := false, true;
      leaving, pending := leaving + pending, {};
      world := Next(world, EndOfStream);
      forall q: Id
        ensures Fits(q)
      {
        assert old(Fits(q));
      }
    }

    /** The reader tells one request on its list that the stream has ended. */
    method Tell(id: Id)
      requires Valid() && id in leaving
      modifies this
      ensures Valid() && world == Next(old(world), Step.TellEnd(id)) && leaving == old(leaving) - {id}
    {
      assert Fits(id);
      leaving := leaving - {id};
      if id in channels {
        channels := channels[id := channels[id] + [Exited]];
      }
      world := Next(world, Step.TellEnd(id));
      forall q: Id
        ensures Fits(q)
      {
        assert old(Fits(q));
      }
    }

    /**
      The requester waits on its channel: it hears an answer, stops listening when its
      time is up, or goes on waiting.
     */
    method Await(id: Id, timeUp: bool) returns (outcome: Option<Outcome>)
      requires Valid() && id in channels && id !in expired
      modifies this
      ensures Valid() && id in old(world).lives
      ensures if old(world).lives[id].Told?
              then outcome == Some(Answer(old(world).lives[id].message)) && world == Next(old(world), Step.Collect(id))
              else outcome == None && world == if timeUp then Next(old(world), Step.Expire(id)) else old(world)
    {
      assert Fits(id);
      if channels[id] != [] {
        outcome := Some(Answer(channels[id][0]));
        channels := channels - {id};
        world := Next(world, Step.Collect(id));
      } else {
        outcome := None;
        if timeUp {
          expired := expired + {id};
          world := Next(world, Step.Expire(id));
        }
      }
      forall q: Id
        ensures Fits(q)
      {
        assert old(Fits(q));
      }
    }

    /** The requester whose time is up takes its request out of the table. */
    method Leave(id: Id) returns (outcome: Outcome)
      requires Valid() && id in expired
      modifies this
      ensures Valid() && world == Next(old(world), Step.Withdraw(id)) && outcome == TimedOut && id !in pending
    {
      assert Fits(id);
      pending := pending - {id};
      channels := channels - {id};
      expired := expired - {id};
      outcome := TimedOut;
      world := Next(world, Step.Withdraw(id));
      forall q: Id
        ensures Fits(q)
      {
        assert old(Fits(q));
      }
    }

    /** Some other message could not be written. */
    method LosePipe()
      requires Valid()
      modifies this
      ensures Valid() && world == Next(old(world), BreakPipe)
    {
      alive := false;
      world := Next(world, BreakPipe);
      forall q: Id
        ensures Fits(q)
      {
        assert old(Fits(q));
      }
    }
  }

  /** The steps of any interleaving, one after another. */
  method RunSteps(steps: seq<Step>) returns (table: Table)
    ensures fresh(table) && table.Valid() && table.world == RunOf(steps)
  {
    table := new Table();
    AtStart(steps);
    for k := 0 to |steps|
      invariant fresh(table) && table.Valid() && table.world == At(steps, k)
    {
      AfterStep(steps, k);
      RunStep(table, steps[k]);
    }
    AtEnd(steps);
  }

  /** One step, where it is possible. */
  method RunStep(table: Table, step: Step)
    requires table.Valid()
    modifies table
    ensures table.Valid() && table.world == Next(old(table.world), step)
  {
    match step {
      case Begin => var _ := table.Start();
      case Enlist(id) =>
        assert table.Fits(id);
        if id in table.numbered {
          table.Register(id);
        }
      case FailWrite(id) =>
        assert table.Fits(id);
        if id in table.channels && id !in table.expired {
          table.GiveUp(id);
        }
      case Arrive(id, payload) => if !table.ended { table.Handle(id, payload); }
      case EndOfStream => if !table.ended { table.Drain(); }
      case TellEnd(id) =>
        assert table.Fits(id);
        if id in table.leaving {
          table.Tell(id);
        }
      case Collect(id) =>
        assert table.Fits(id);
        if id in table.channels && id !in table.expired {
          var _ := table.Await(id, false);
        }
      case Expire(id) =>
        assert table.Fits(id);
        if id in table.channels && id !in table.expired && table.channels[id] == [] {
          var _ := table.Await(id, true);
        }
      case Withdraw(id) =>
        assert table.Fits(id);
        if id in table.expired {
          var _ := table.Leave(id);
        }
      case BreakPipe => table.LosePipe();
    }
  }
}
