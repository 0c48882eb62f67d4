/** The two goroutines of one keysign call. The waiter registers for a signature from the peers;
    the generator joins the party and signs. Each tells the other over a channel with two slots;
    the call returns, and closes the channel, when both have ended. */
module KeysignRace {
  import opened Types
  import Notifiers

  datatype Note = SignatureGenerated | SignatureReceived

  datatype WaitResult = Received | NotifierError | TimedOut | PeerNotified | EmptyData

  datatype Waiter = Registering | Waiting | Sending | WaiterDone(result: WaitResult)

  datatype GenResult = Generated | Failed | SignReceived | NotActiveSigner

  /** `heard` is the last note that the join loop took from the channel. */
  datatype Generator = Blocked | Preparing | Joining(heard: seq<Note>) | Signing | Notifying(result: GenResult)
                     | GeneratorDone(result: GenResult)

  datatype Return = ReceivedResponse | EmptyResponse | GeneratedResponse(result: GenResult)

  datatype State = State(waiter: Waiter, generator: Generator, registered: bool,
                         channel: seq<Note>, closed: bool, sends: nat, returned: seq<Return>)

  const CAPACITY := 2

  const START := State(Registering, Blocked, false, [], false, 0, [])

  datatype Event =
    | Register                     // the notifier is created and registered, or its creation fails
    | TakeSignatures(empty: bool)  // the waiter takes a batch from the response channel
    | WaitTimeout
    | WaiterHears                  // the waiter takes a note from the channel
    | WaiterSends
    | Unblock                      // the generator sees that the notifier is registered
    | GiveUpEarly(result: GenResult)
    | BeginJoin
    | JoinHears                    // the join loop takes a note from the channel
    | EndJoin(result: GenResult)   // joining failed, was cut short, or chose other signers
    | BecomeSigner
    | EndSigning(result: GenResult)
    | GeneratorSends
    | ReturnAll

  /** `notifierOk` says whether the notifier of this call can be created. */
  predicate Enabled(notifierOk: bool, s: State, e: Event) {
    match e
    case Register => s.waiter.Registering?
    case TakeSignatures(empty) => s.waiter.Waiting?
    case WaitTimeout => s.waiter.Waiting?
    case WaiterHears => s.waiter.Waiting? && s.channel != []
    case WaiterSends => s.waiter.Sending? && |s.channel| < CAPACITY
    case Unblock => s.generator.Blocked? && s.registered
    case GiveUpEarly(result) => s.generator.Preparing? && (result.Failed? || result.NotActiveSigner?)
    case BeginJoin => s.generator.Preparing?
    case JoinHears => s.generator.Joining? && s.channel != []
    case EndJoin(result) =>
      && s.generator.Joining?
      && (result.Failed? || (result.SignReceived? && HeardReceived(s.generator.heard))
          || (result.NotActiveSigner? && !HeardReceived(s.generator.heard)))
    case BecomeSigner => s.generator.Joining? && !HeardReceived(s.generator.heard)
    case EndSigning(result) => s.generator.Signing? && (result.Generated? || result.Failed?)
    case GeneratorSends => s.generator.Notifying? && |s.channel| < CAPACITY
    case ReturnAll => s.waiter.WaiterDone? && s.generator.GeneratorDone? && s.returned == []
  }

  predicate HeardReceived(heard: seq<Note>) {
    heard != [] && heard[|heard| - 1] == SignatureReceived
  }

  function ReturnValue(w: WaitResult, g: GenResult): Return {
    if w.Received? then ReceivedResponse
    else if g.SignReceived? || g.NotActiveSigner? then EmptyResponse
    else GeneratedResponse(g)
  }

  function Send(s: State, n: Note): State {
    s.(channel := s.channel + [n], sends := s.sends + 1)
  }

  function Step(notifierOk: bool, s: State, e: Event): State
    requires Enabled(notifierOk, s, e)
  {
    match e
    case Register =>
      if notifierOk then s.(waiter := Waiting, registered := true) else s.(waiter := WaiterDone(NotifierError))
    case TakeSignatures(empty) => s.(waiter := if empty then WaiterDone(EmptyData) else Sending)
    case WaitTimeout => s.(waiter := WaiterDone(TimedOut))
    case WaiterHears => s.(waiter := WaiterDone(PeerNotified), channel := s.channel[1..])
    case WaiterSends => Send(s, SignatureReceived).(waiter := WaiterDone(Received))
    case Unblock => s.(generator := Preparing)
    case GiveUpEarly(result) => s.(generator := GeneratorDone(result))
    case BeginJoin => s.(generator := Joining([]))
    case JoinHears =>
      s.(generator := Joining(s.generator.heard + [s.channel[0]]), channel := s.channel[1..])
    case EndJoin(result) => s.(generator := GeneratorDone(result))
    case BecomeSigner => s.(generator := Signing)
    case EndSigning(result) => s.(generator := Notifying(result))
    case GeneratorSends =>
      Send(s, SignatureGenerated).(generator := GeneratorDone(s.generator.result))
    case ReturnAll =>
      s.(closed := true, returned := [ReturnValue(s.waiter.result, s.generator.result)])
  }

  ghost predicate Run(notifierOk: bool, states: seq<State>, events: seq<Event>) {
    && |states| == |events| + 1 && states[0] == START
    && forall k :: 0 <= k < |events| ==>
      Enabled(notifierOk, states[k], events[k]) && states[k + 1] == Step(notifierOk, states[k], events[k])
  }

  // ------------------------------------------------------------ the invariant

  function WaiterSent(s: State): nat {
    if s.waiter == WaiterDone(Received) then 1 else 0
  }

  predicate GeneratorMaySend(g: Generator) {
    !g.GeneratorDone?
  }

  predicate Inv(notifierOk: bool, s: State) {
    // one note each, and the waiter's only after a signature
    && s.sends <= WaiterSent(s) + (if GeneratorMaySend(s.generator) then 0 else 1)
    && |s.channel| <= s.sends
    && (SignatureReceived in s.channel ==> s.waiter == WaiterDone(Received))
    && (SignatureGenerated in s.channel ==> s.generator.GeneratorDone?)
    && (s.generator.Joining? && HeardReceived(s.generator.heard) ==> s.waiter == WaiterDone(Received))
    && (s.generator == GeneratorDone(SignReceived) ==> s.waiter == WaiterDone(Received))
    // the generator starts after registration, which needs a notifier
    && (s.registered <==> notifierOk && !s.waiter.Registering?)
    && (!s.generator.Blocked? ==> s.registered)
    && (!notifierOk ==> s.waiter.Registering? || s.waiter == WaiterDone(NotifierError))
    && (s.waiter == WaiterDone(NotifierError) ==> !notifierOk)
    // the end
    && (s.closed <==> s.returned != [])
    && (s.closed ==>
          && s.waiter.WaiterDone? && s.generator.GeneratorDone?
          && s.returned == [ReturnValue(s.waiter.result, s.generator.result)])
    && (s.generator.Notifying? ==> s.generator.result.Generated? || s.generator.result.Failed?)
  }

  lemma StepKeepsInv(notifierOk: bool, s: State, e: Event)
    requires Inv(notifierOk, s) && Enabled(notifierOk, s, e)
    ensures Inv(notifierOk, Step(notifierOk, s, e))
  {
    if e.WaiterHears? || e.JoinHears? {
      assert forall n :: n in s.channel[1..] ==> n in s.channel;
      assert s.channel[0] in s.channel;
    }
  }

  lemma {:induction false} InvAlways(notifierOk: bool, states: seq<State>, events: seq<Event>, k: nat)
    requires Run(notifierOk, states, events) && k < |states|
    ensures Inv(notifierOk, states[k])
  {
    if k > 0 {
      InvAlways(notifierOk, states, events, k - 1);
      StepKeepsInv(notifierOk, states[k - 1], events[k - 1]);
    }
  }

  // ------------------------------------------------------------ what callers rely on

  /** In every interleaving at most two notes are sent, a goroutine that wants to send finds a free
      slot in an open channel, and the generator only runs once the notifier is registered. */
  lemma SendsNeverBlock(notifierOk: bool, states: seq<State>, events: seq<Event>, k: nat)
    requires Run(notifierOk, states, events) && k < |states|
    ensures states[k].sends <= CAPACITY
    ensures states[k].waiter.Sending? || states[k].generator.Notifying? ==>
      |states[k].channel| < CAPACITY && !states[k].closed
    ensures !states[k].generator.Blocked? ==> states[k].registered
  {
    InvAlways(notifierOk, states, events, k);
  }

  /** The call returns the received signatures whenever the waiter got them, and an empty response
      only if this node was not chosen to sign. */
  lemma ReturnsReceived(notifierOk: bool, states: seq<State>, events: seq<Event>, k: nat)
    requires Run(notifierOk, states, events) && k < |states| && states[k].returned != []
    ensures states[k].returned == [ReceivedResponse] <==> states[k].waiter == WaiterDone(Received)
    ensures states[k].returned == [EmptyResponse] ==> states[k].generator == GeneratorDone(NotActiveSigner)
    ensures states[k].generator == GeneratorDone(SignReceived) ==> states[k].returned == [ReceivedResponse]
  {
    InvAlways(notifierOk, states, events, k);
  }

  /** Once the join loop has heard that the signature arrived, this node neither signs nor says that it
      was not chosen. */
  lemma HeardStopsSigning(notifierOk: bool, states: seq<State>, events: seq<Event>, k: nat)
    requires Run(notifierOk, states, events) && k < |states| && JoinHears in events[..k]
    ensures BecomeSigner !in events[..k] && EndJoin(NotActiveSigner) !in events[..k]
    ensures TakeSignatures(false) in events[..k]
  {
    ResultsFit(notifierOk, states, events, k);
  }

  // ------------------------------------------------------------ results, by what happened

  /** How the waiter stands is decided by the one thing that happened to it. */
  ghost predicate WaiterFits(notifierOk: bool, past: seq<Event>, w: Waiter) {
    && (w.Registering? <==> Register !in past)
    && (w == WaiterDone(NotifierError) <==> Register in past && !notifierOk)
    && (w == WaiterDone(EmptyData) <==> TakeSignatures(true) in past)
    && (w == WaiterDone(TimedOut) <==> WaitTimeout in past)
    && (w == WaiterDone(PeerNotified) <==> WaiterHears in past)
    && (w.Sending? || w == WaiterDone(Received) <==> TakeSignatures(false) in past)
    && (w == WaiterDone(Received) <==> WaiterSends in past)
  }

  /** The generator ended with this result. */
  ghost predicate EndedWith(past: seq<Event>, g: GenResult) {
    GiveUpEarly(g) in past || EndJoin(g) in past || (EndSigning(g) in past && GeneratorSends in past)
  }

  ghost predicate GeneratorFits(past: seq<Event>, g: Generator) {
    && (g.Blocked? <==> Unblock !in past)
    && (forall r :: g == GeneratorDone(r) <==> EndedWith(past, r))
    && (forall r :: g == Notifying(r) || (g == GeneratorDone(r) && GeneratorSends in past) <==> EndSigning(r) in past)
    && (GeneratorSends in past ==> g.GeneratorDone?)
    && (g.Signing? || g.Notifying? || GeneratorSends in past <==> BecomeSigner in past)
    && (g.Blocked? || g.Preparing? ==> BeginJoin !in past)
    && (g.Joining? || g.Signing? || g.Notifying? ==> BeginJoin in past)
  }

  /** The join loop hears only the note of the waiter, the waiter only that of the generator, and a
      note that was sent is in the channel until one of them takes it. */
  ghost predicate NotesFit(past: seq<Event>, s: State) {
    NotesHeard(past, s.generator) && NotesWait(past, s.channel)
  }

  ghost predicate NotesHeard(past: seq<Event>, g: Generator) {
    && (WaiterHears in past ==> GeneratorSends in past) && (JoinHears in past ==> WaiterSends in past)
    && (g.Blocked? || g.Preparing? ==> JoinHears !in past)
    && (g.Joining? ==> g.heard == if JoinHears in past then [SignatureReceived] else [])
    && (EndJoin(SignReceived) in past ==> JoinHears in past)
    && (JoinHears in past ==> BecomeSigner !in past && EndJoin(NotActiveSigner) !in past)
  }

  ghost predicate NotesWait(past: seq<Event>, channel: seq<Note>) {
    && (SignatureReceived in channel <==> WaiterSends in past && JoinHears !in past)
    && (SignatureGenerated in channel <==> GeneratorSends in past && WaiterHears !in past)
  }

  lemma WaiterStepFits(notifierOk: bool, past: seq<Event>, s: State, e: Event)
    requires Enabled(notifierOk, s, e) && WaiterFits(notifierOk, past, s.waiter)
    ensures WaiterFits(notifierOk, past + [e], Step(notifierOk, s, e).waiter)
  {
    assert forall x :: x in past + [e] <==> x in past || x == e;
  }

  lemma GeneratorStepFits(notifierOk: bool, past: seq<Event>, s: State, e: Event)
    requires Enabled(notifierOk, s, e) && GeneratorFits(past, s.generator)
    ensures GeneratorFits(past + [e], Step(notifierOk, s, e).generator)
  {
    assert forall x :: x in past + [e] <==> x in past || x == e;
    var g := Step(notifierOk, s, e).generator;
    forall r ensures g == GeneratorDone(r) <==> EndedWith(past + [e], r) {
    }
  }

  lemma NoteHeard(notifierOk: bool, past: seq<Event>, s: State, e: Event)
    requires Enabled(notifierOk, s, e) && Inv(notifierOk, s) && NotesFit(past, s)
    requires WaiterFits(notifierOk, past, s.waiter) && GeneratorFits(past, s.generator)
    ensures NotesHeard(past + [e], Step(notifierOk, s, e).generator)
  {
    assert forall x :: x in past + [e] <==> x in past || x == e;
    if e.WaiterHears? {
      HeardFirst(s.channel, SignatureGenerated);
    } else if e.JoinHears? {
      HeardFirst(s.channel, SignatureReceived);
      assert !EndedWith(past, NotActiveSigner);
    }
  }

  lemma NoteWaits(notifierOk: bool, past: seq<Event>, s: State, e: Event)
    requires Enabled(notifierOk, s, e) && Inv(notifierOk, s) && NotesFit(past, s)
    requires WaiterFits(notifierOk, past, s.waiter) && GeneratorFits(past, s.generator)
    ensures NotesWait(past + [e], Step(notifierOk, s, e).channel)
  {
    assert forall x :: x in past + [e] <==> x in past || x == e;
    if e.WaiterHears? {
      HeardFirst(s.channel, SignatureGenerated);
    } else if e.JoinHears? {
      HeardFirst(s.channel, SignatureReceived);
    }
  }

  lemma HeardFirst(channel: seq<Note>, n: Note)
    requires channel != [] && forall m :: m in channel ==> m == n
    ensures channel[0] == n && n in channel
    ensures forall m :: m in channel[1..] ==> m == n
  {
    assert channel[0] in channel;
    assert forall m :: m in channel[1..] ==> m in channel;
  }

  lemma {:induction false} ResultsFit(notifierOk: bool, states: seq<State>, events: seq<Event>, k: nat)
    requires Run(notifierOk, states, events) && k < |states|
    ensures WaiterFits(notifierOk, events[..k], states[k].waiter) && GeneratorFits(events[..k], states[k].generator)
    ensures NotesFit(events[..k], states[k])
  {
    if k > 0 {
      ResultsFit(notifierOk, states, events, k - 1);
      InvAlways(notifierOk, states, events, k - 1);
      assert events[..k] == events[..k - 1] + [events[k - 1]];
      WaiterStepFits(notifierOk, events[..k - 1], states[k - 1], events[k - 1]);
      GeneratorStepFits(notifierOk, events[..k - 1], states[k - 1], events[k - 1]);
      NoteHeard(notifierOk, events[..k - 1], states[k - 1], events[k - 1]);
      NoteWaits(notifierOk, events[..k - 1], states[k - 1], events[k - 1]);
    }
  }

  /** What the waiter ends with, in every interleaving: it got signatures exactly if it took a batch
      that is not empty, and an empty one, the timeout and a note of the generator are told apart. */
  lemma WaiterEndsBy(notifierOk: bool, states: seq<State>, events: seq<Event>, k: nat)
    requires Run(notifierOk, states, events) && k < |states| && states[k].waiter.WaiterDone?
    ensures var past, result := events[..k], states[k].waiter.result;
      && (result == Received <==> TakeSignatures(false) in past)
      && (result == EmptyData <==> TakeSignatures(true) in past)
      && (result == TimedOut <==> WaitTimeout in past)
      && (result == PeerNotified <==> WaiterHears in past && GeneratorSends in past)
      && (result == NotifierError <==> !notifierOk)
  {
    ResultsFit(notifierOk, states, events, k);
    InvAlways(notifierOk, states, events, k);
  }

  /** What a call returns, in every interleaving: the received batch exactly if one that is not empty
      was taken; otherwise the generator's result, which is an empty response if this node was not
      to sign. */
  lemma ReturnsByEvents(notifierOk: bool, states: seq<State>, events: seq<Event>, k: nat)
    requires Run(notifierOk, states, events) && k < |states| && states[k].returned != []
    ensures var past, returned := events[..k], states[k].returned;
      && (returned == [ReceivedResponse] <==> TakeSignatures(false) in past)
      && (returned == [EmptyResponse] <==> TakeSignatures(false) !in past && EndedWith(past, NotActiveSigner))
      && (forall g :: returned == [GeneratedResponse(g)] <==>
            TakeSignatures(false) !in past && EndedWith(past, g) && g in {Generated, Failed})
  {
    ResultsFit(notifierOk, states, events, k);
    InvAlways(notifierOk, states, events, k);
  }

  // ------------------------------------------------------------ the call ends, or hangs

  function WaiterRank(w: Waiter): nat {
    match w
    case Registering => 3
    case Waiting => 2
    case Sending => 1
    case WaiterDone(_) => 0
  }

  function GeneratorRank(g: Generator): nat {
    match g
    case Blocked => 5
    case Preparing => 4
    case Joining(_) => 3
    case Signing => 2
    case Notifying(_) => 1
    case GeneratorDone(_) => 0
  }

  function Rank(s: State): nat {
    2 * WaiterRank(s.waiter) + 2 * GeneratorRank(s.generator) + |s.channel| + if s.returned == [] then 1 else 0
  }

  lemma StepLowersRank(notifierOk: bool, s: State, e: Event)
    requires Enabled(notifierOk, s, e)
    ensures Rank(Step(notifierOk, s, e)) < Rank(s)
  {
  }

  ghost predicate Lowers(states: seq<State>, k: nat)
    requires k + 1 < |states|
  {
    Rank(states[k + 1]) < Rank(states[k])
  }

  lemma {:induction false} RankFalls(states: seq<State>, k: nat)
    requires k < |states| && forall j :: 0 <= j < |states| - 1 ==> Lowers(states, j)
    ensures Rank(states[k]) + k <= Rank(states[0])
  {
    if k > 0 {
      RankFalls(states, k - 1);
      assert Lowers(states, k - 1);
    }
  }

  ghost predicate Stuck(notifierOk: bool, s: State) {
    forall e :: !Enabled(notifierOk, s, e)
  }

  /** A step that can be taken before the call has returned. */
  function SomeStep(s: State): (e: Event)
    requires Inv(true, s) && s.returned == []
    ensures Enabled(true, s, e)
  {
    if s.waiter.Registering? then Register
    else if s.waiter.Waiting? then WaitTimeout
    else if s.waiter.Sending? then WaiterSends
    else
      match s.generator
      case Blocked => Unblock
      case Preparing => BeginJoin
      case Joining(_) => EndJoin(Failed)
      case Signing => EndSigning(Failed)
      case Notifying(_) => GeneratorSends
      case GeneratorDone(_) => ReturnAll
  }

  lemma NotStuck(s: State)
    requires Inv(true, s) && s.returned == []
    ensures !Stuck(true, s)
  {
    assert Enabled(true, s, SomeStep(s));
  }

  /** Every run has at most seventeen steps. */
  lemma RunsAreShort(notifierOk: bool, states: seq<State>, events: seq<Event>)
    requires Run(notifierOk, states, events)
    ensures |events| <= 17
  {
    forall j | 0 <= j < |states| - 1 ensures Lowers(states, j) {
      StepLowersRank(notifierOk, states[j], events[j]);
    }
    RankFalls(states, |events|);
    assert Rank(START) == 17;
  }

  /** A keysign call that can go no further has returned exactly if its notifier could be created,
      which is if neither the message id nor the messages nor the pool key are empty; otherwise the
      generator waits for ever. */
  lemma EndsIffNotifierCreated(messageID: string, messages: seq<Bytes>, poolPubKey: string,
                               states: seq<State>, events: seq<Event>)
    requires Run(Notifiers.CanCreate(messageID, messages, poolPubKey), states, events)
    requires Stuck(Notifiers.CanCreate(messageID, messages, poolPubKey), states[|events|])
    ensures states[|events|].returned != [] <==> messageID != "" && messages != [] && poolPubKey != ""
  {
    var notifierOk := Notifiers.CanCreate(messageID, messages, poolPubKey);
    var s := states[|events|];
    InvAlways(notifierOk, states, events, |events|);
    if notifierOk && s.returned == [] {
      NotStuck(s);
    }
  }
}
