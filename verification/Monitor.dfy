/** The runtime monitor of one host: a thread that pops messages, first waiting for a DONE, then collecting
    FLUSHED from its schedulers and from the hosts downstream before it tells everybody to exit.
 */
module Monitor {

  datatype Kind = Unknown | Done | Flushed | Kill | Start

  datatype Msg = Msg(kind: Kind, schedId: int)

  /** The local end of a link to another host; `upstream` if this host is the upstream side of it. */
  datatype Proxy = Proxy(id: int, upstream: bool)

  datatype Config = Config(scheds: seq<int>, proxies: seq<Proxy>)

  /** What a scheduler is told. */
  datatype Command = StartCmd | DoneCmd | ExitCmd

  /** The two loops of the monitor thread, and the two ways it stops. `drained` is history. */
  datatype Phase = Running | Draining | Exited | Killed(drained: bool)

  datatype State = State(phase: Phase, schedDone: map<int, bool>,
                         toScheds: seq<seq<Command>>, toProxies: seq<seq<Kind>>)

  // ----- One message

  /** `sched_done[id]`, which is false for an id the map does not have. */
  predicate IsDone(schedDone: map<int, bool>, id: int) {
    id in schedDone && schedDone[id]
  }

  predicate AllDone(cfg: Config, schedDone: map<int, bool>) {
    && (forall j :: 0 <= j < |cfg.scheds| ==> IsDone(schedDone, cfg.scheds[j]))
    && (forall p :: 0 <= p < |cfg.proxies| && cfg.proxies[p].upstream ==> IsDone(schedDone, cfg.proxies[p].id))
  }

  function Ids(cfg: Config): set<int> {
    (set s | s in cfg.scheds) + (set p | p in cfg.proxies :: p.id)
  }

  function NoneDone(cfg: Config): map<int, bool> {
    map id | id in Ids(cfg) :: false
  }

  function TellScheds(outs: seq<seq<Command>>, c: Command): (r: seq<seq<Command>>)
    ensures |r| == |outs| && forall j :: 0 <= j < |outs| ==> r[j] == outs[j] + [c]
  {
    seq(|outs|, j requires 0 <= j < |outs| => outs[j] + [c])
  }

  /** Sends `k` over the proxies whose flag is `up`. */
  function Send(cfg: Config, outs: seq<seq<Kind>>, up: bool, k: Kind): (r: seq<seq<Kind>>)
    requires |outs| == |cfg.proxies|
    ensures |r| == |outs|
    ensures forall p :: 0 <= p < |outs| ==>
                          r[p] == if cfg.proxies[p].upstream == up then outs[p] + [k] else outs[p]
  {
    seq(|outs|, p requires 0 <= p < |outs| =>
          if cfg.proxies[p].upstream == up then outs[p] + [k] else outs[p])
  }

  function SendAll(cfg: Config, outs: seq<seq<Kind>>, k: Kind): (r: seq<seq<Kind>>)
    requires |outs| == |cfg.proxies|
    ensures |r| == |outs| && forall p :: 0 <= p < |outs| ==> r[p] == outs[p] + [k]
  {
    Send(cfg, Send(cfg, outs, true, k), false, k)
  }

  predicate Shaped(cfg: Config, s: State) {
    |s.toScheds| == |cfg.scheds| && |s.toProxies| == |cfg.proxies|
  }

  function Init(cfg: Config): State {
    State(Running, map[], seq(|cfg.scheds|, _ => []), seq(|cfg.proxies|, _ => []))
  }

  function Exit(cfg: Config, s: State): (r: State)
    requires Shaped(cfg, s)
    ensures Shaped(cfg, r)
  {
    s.(phase := Exited,
       toScheds := TellScheds(s.toScheds, ExitCmd),
       toProxies := Send(cfg, Send(cfg, s.toProxies, false, Flushed), true, Kill))
  }

  function Handle(cfg: Config, s: State, m: Msg): (r: State)
    requires Shaped(cfg, s)
    ensures Shaped(cfg, r)
  {
    match s.phase
    case Running =>
      (match m.kind
       case Kill => s.(phase := Killed(false), toProxies := SendAll(cfg, s.toProxies, Kill))
       case Start =>
         s.(toScheds := TellScheds(s.toScheds, StartCmd), toProxies := Send(cfg, s.toProxies, true, Start))
       case Done =>
         s.(phase := Draining, schedDone := NoneDone(cfg),
            toScheds := TellScheds(s.toScheds, DoneCmd), toProxies := SendAll(cfg, s.toProxies, Done))
       case _ => s)
    case Draining =>
      (match m.kind
       case Kill => s.(phase := Killed(true), toProxies := Send(cfg, s.toProxies, true, Kill))
       case Flushed =>
         var t := s.(schedDone := s.schedDone[m.schedId := true]);
         if AllDone(cfg, t.schedDone) then Exit(cfg, t) else t
       case _ => s)
    case _ => s
  }

  /** The state after the messages of `log` have been popped. */
  function After(cfg: Config, log: seq<Msg>): (s: State)
    ensures Shaped(cfg, s)
  {
    if log == [] then Init(cfg)
    else Handle(cfg, After(cfg, log[..|log| - 1]), log[|log| - 1])
  }

  lemma AfterOne(cfg: Config, log: seq<Msg>, m: Msg)
    ensures After(cfg, log + [m]) == Handle(cfg, After(cfg, log), m)
  {
    assert (log + [m])[..|log|] == log;
  }

  lemma PrefixNext<T>(s: seq<T>, k: nat)
    requires k < |s|
    ensures s[..k + 1] == s[..k] + [s[k]]
  {
  }

  lemma AfterNext(cfg: Config, queue: seq<Msg>, k: nat)
    requires k < |queue|
    ensures After(cfg, queue[..k + 1]) == Handle(cfg, After(cfg, queue[..k]), queue[k])
  {
    PrefixNext(queue, k);
    AfterOne(cfg, queue[..k], queue[k]);
  }

  // ----- What has been sent

  function Repeat<T>(x: T, n: nat): (r: seq<T>)
    ensures |r| == n && forall i :: 0 <= i < n ==> r[i] == x
  {
    seq(n, _ => x)
  }

  predicate Has(log: seq<Msg>, k: Kind) {
    exists i :: 0 <= i < |log| && log[i].kind == k
  }

  /** START messages popped in the first loop. */
  function Starts(log: seq<Msg>): nat {
    if log == [] then 0
    else
      var rest := log[..|log| - 1];
      var m := log[|log| - 1];
      Starts(rest) + if m.kind == Start && !Has(rest, Done) && !Has(rest, Kill) then 1 else 0
  }

  /** What went over a proxy after the START messages, in each phase. */
  function ProxyTail(phase: Phase, up: bool): seq<Kind> {
    match phase
    case Running => []
    case Draining => [Done]
    case Exited => [Done, if up then Kill else Flushed]
    case Killed(drained) => if !drained then [Kill] else if up then [Done, Kill] else [Done]
  }

  function SchedTail(phase: Phase): seq<Command> {
    match phase
    case Running => []
    case Draining => [DoneCmd]
    case Exited => [DoneCmd, ExitCmd]
    case Killed(drained) => if drained then [DoneCmd] else []
  }

  ghost predicate SentIs(cfg: Config, s: State, starts: nat)
    requires Shaped(cfg, s)
  {
    && (forall p :: 0 <= p < |cfg.proxies| ==>
                      var up := cfg.proxies[p].upstream;
                      s.toProxies[p] == Repeat(Start, if up then starts else 0) + ProxyTail(s.phase, up))
    && (forall j :: 0 <= j < |cfg.scheds| ==> s.toScheds[j] == Repeat(StartCmd, starts) + SchedTail(s.phase))
  }

  /** The first loop goes on as long as there is neither a DONE nor a KILL. */
  lemma {:induction false} RunningIff(cfg: Config, log: seq<Msg>)
    ensures After(cfg, log).phase == Running <==> !Has(log, Done) && !Has(log, Kill)
    ensures After(cfg, log).phase.Killed? ==> Has(log, Kill)
    ensures After(cfg, log).phase in {Draining, Exited, Killed(true)} ==> Has(log, Done)
  {
    if log != [] {
      var rest, m := log[..|log| - 1], log[|log| - 1];
      RunningIff(cfg, rest);
      assert forall k :: Has(log, k) <==> Has(rest, k) || m.kind == k by {
        forall k ensures Has(log, k) <==> Has(rest, k) || m.kind == k {
          if Has(rest, k) {
            var i :| 0 <= i < |rest| && rest[i].kind == k;
            assert log[i].kind == k;
          }
          if Has(log, k) && m.kind != k {
            var i :| 0 <= i < |log| && log[i].kind == k;
            assert rest[i].kind == k;
          }
        }
      }
    }
  }

  /** Exactly what a monitor has sent: over each proxy the STARTs if it is upstream, then one DONE, then
      one KILL or one FLUSHED; to each scheduler the starts, then one DONE, then one EXIT. */
  lemma {:induction false} SentExactly(cfg: Config, log: seq<Msg>)
    ensures SentIs(cfg, After(cfg, log), Starts(log))
  {
    if log != [] {
      var rest, m := log[..|log| - 1], log[|log| - 1];
      SentExactly(cfg, rest);
      RunningIff(cfg, rest);
      HandleSends(cfg, After(cfg, rest), m, Starts(rest));
    }
  }

  lemma HandleSends(cfg: Config, s: State, m: Msg, starts: nat)
    requires Shaped(cfg, s) && SentIs(cfg, s, starts)
    ensures SentIs(cfg, Handle(cfg, s, m), starts + if s.phase == Running && m.kind == Start then 1 else 0)
  {
    if s.phase == Running {
      RunningSends(cfg, s, m, starts);
    } else if s.phase == Draining {
      DrainingSends(cfg, s, m, starts);
    }
  }

  lemma RunningSends(cfg: Config, s: State, m: Msg, starts: nat)
    requires Shaped(cfg, s) && SentIs(cfg, s, starts) && s.phase == Running
    ensures SentIs(cfg, Handle(cfg, s, m), starts + if m.kind == Start then 1 else 0)
  {
    match m.kind
    case Start => StartSends(cfg, s, m, starts);
    case Done => DoneSends(cfg, s, m, starts);
    case Kill => KillSends(cfg, s, m, starts);
    case _ =>
  }

  lemma DoneSends(cfg: Config, s: State, m: Msg, starts: nat)
    requires Shaped(cfg, s) && SentIs(cfg, s, starts) && s.phase == Running && m.kind == Done
    ensures SentIs(cfg, Handle(cfg, s, m), starts)
  {
    FirstToAll(cfg, s, Done, starts);
    NothingAfter(Repeat(StartCmd, starts));
  }

  lemma KillSends(cfg: Config, s: State, m: Msg, starts: nat)
    requires Shaped(cfg, s) && SentIs(cfg, s, starts) && s.phase == Running && m.kind == Kill
    ensures SentIs(cfg, Handle(cfg, s, m), starts)
  {
    FirstToAll(cfg, s, Kill, starts);
    NothingAfter(Repeat(StartCmd, starts));
  }

  /** The first message after the STARTs. */
  lemma FirstToAll(cfg: Config, s: State, k: Kind, starts: nat)
    requires Shaped(cfg, s) && SentIs(cfg, s, starts) && s.phase == Running
    ensures forall p :: 0 <= p < |cfg.proxies| ==>
                          SendAll(cfg, s.toProxies, k)[p]
                          == Repeat(Start, if cfg.proxies[p].upstream then starts else 0) + [k]
  {
    forall p | 0 <= p < |cfg.proxies|
      ensures SendAll(cfg, s.toProxies, k)[p]
           == Repeat(Start, if cfg.proxies[p].upstream then starts else 0) + [k]
    {
      NothingAfter(Repeat(Start, if cfg.proxies[p].upstream then starts else 0));
    }
  }

  lemma NothingAfter<T>(s: seq<T>)
    ensures s + [] == s
  {
  }

  lemma StartSends(cfg: Config, s: State, m: Msg, starts: nat)
    requires Shaped(cfg, s) && SentIs(cfg, s, starts) && s.phase == Running && m.kind == Start
    ensures SentIs(cfg, Handle(cfg, s, m), starts + 1)
  {
    OneMore(Start, starts);
    OneMore(StartCmd, starts);
  }

  lemma OneMore<T>(x: T, n: nat)
    ensures Repeat(x, n + 1) == Repeat(x, n) + [x]
  {
  }

  lemma DrainingSends(cfg: Config, s: State, m: Msg, starts: nat)
    requires Shaped(cfg, s) && SentIs(cfg, s, starts) && s.phase == Draining
    ensures SentIs(cfg, Handle(cfg, s, m), starts)
  {
    if m.kind == Kill {
      LateKillSends(cfg, s, m, starts);
    } else if m.kind == Flushed {
      var t := s.(schedDone := s.schedDone[m.schedId := true]);
      assert SentIs(cfg, t, starts);
      if AllDone(cfg, t.schedDone) {
        ExitSends(cfg, t, starts);
      }
    }
  }

  lemma LateKillSends(cfg: Config, s: State, m: Msg, starts: nat)
    requires Shaped(cfg, s) && SentIs(cfg, s, starts) && s.phase == Draining && m.kind == Kill
    ensures SentIs(cfg, Handle(cfg, s, m), starts)
  {
    forall p | 0 <= p < |cfg.proxies| && cfg.proxies[p].upstream
      ensures s.toProxies[p] + [Kill] == Repeat(Start, starts) + [Done, Kill]
    {
      TwoAfter(Repeat(Start, starts), Done, Kill);
    }
  }

  lemma ExitSends(cfg: Config, s: State, starts: nat)
    requires Shaped(cfg, s) && SentIs(cfg, s, starts) && s.phase == Draining
    ensures SentIs(cfg, Exit(cfg, s), starts)
  {
    forall p | 0 <= p < |cfg.proxies|
      ensures var up := cfg.proxies[p].upstream;
              s.toProxies[p] + [if up then Kill else Flushed]
              == Repeat(Start, if up then starts else 0) + ProxyTail(Exited, up)
    {
      var up := cfg.proxies[p].upstream;
      TwoAfter(Repeat(Start, if up then starts else 0), Done, if up then Kill else Flushed);
    }
    TwoAfter(Repeat(StartCmd, starts), DoneCmd, ExitCmd);
  }

  lemma TwoAfter<T>(s: seq<T>, x: T, y: T)
    ensures s + [x] + [y] == s + [x, y]
  {
  }

  lemma HandleGrows(cfg: Config, s: State, m: Msg)
    requires Shaped(cfg, s)
    ensures s.phase == Exited ==> Handle(cfg, s, m) == s
    ensures forall p :: 0 <= p < |cfg.proxies| ==> s.toProxies[p] <= Handle(cfg, s, m).toProxies[p]
  {
  }

  /** A FLUSHED goes upstream only, from a monitor that has exited, right behind the DONE. */
  lemma FlushedFollowsDone(cfg: Config, log: seq<Msg>, p: nat, k: nat)
    requires p < |cfg.proxies|
    requires var sent := After(cfg, log).toProxies[p]; k < |sent| && sent[k] == Flushed
    ensures After(cfg, log).phase == Exited && !cfg.proxies[p].upstream
    ensures k > 0 && After(cfg, log).toProxies[p][k - 1] == Done
  {
    SentExactly(cfg, log);
  }

  lemma KillIsSentBy(cfg: Config, log: seq<Msg>, p: nat, k: nat)
    requires p < |cfg.proxies|
    requires var sent := After(cfg, log).toProxies[p]; k < |sent| && sent[k] == Kill
    ensures After(cfg, log).phase.Killed? || (After(cfg, log).phase == Exited && cfg.proxies[p].upstream)
  {
    SentExactly(cfg, log);
  }

  lemma DrainingHasSentDone(cfg: Config, log: seq<Msg>, p: nat)
    requires p < |cfg.proxies| && After(cfg, log).phase in {Draining, Exited}
    ensures Done in After(cfg, log).toProxies[p]
    ensures After(cfg, log).phase == Exited && !cfg.proxies[p].upstream ==> Flushed in After(cfg, log).toProxies[p]
  {
    SentExactly(cfg, log);
  }

  lemma ToldDoneMeansDone(cfg: Config, log: seq<Msg>, j: nat)
    requires j < |cfg.scheds|
    ensures DoneCmd in After(cfg, log).toScheds[j] ==> Has(log, Done)
    ensures After(cfg, log).phase in {Draining, Exited} ==> DoneCmd in After(cfg, log).toScheds[j]
  {
    SentExactly(cfg, log);
    RunningIff(cfg, log);
  }

  // ----- What START and KILL cause

  /** The message at `i` is a START that the first loop pops. */
  predicate StartPopped(log: seq<Msg>, i: nat) {
    i < |log| && log[i].kind == Start && !Has(log[..i], Done) && !Has(log[..i], Kill)
  }

  /** `Starts` counts those. */
  lemma {:induction false} StartsCount(log: seq<Msg>)
    ensures Starts(log) == |set i | 0 <= i < |log| && StartPopped(log, i)|
  {
    var all := set i | 0 <= i < |log| && StartPopped(log, i);
    if log == [] {
      assert all == {};
    } else {
      StartsCount(log[..|log| - 1]);
      StartPlaces(log, |log| - 1);
    }
  }

  lemma StartPlaces(log: seq<Msg>, n: nat)
    requires |log| == n + 1
    ensures (set i | 0 <= i < |log| && StartPopped(log, i))
         == (set i | 0 <= i < n && StartPopped(log[..n], i)) + if StartPopped(log, n) then {n} else {}
  {
    forall i | 0 <= i < n
      ensures StartPopped(log[..n], i) <==> StartPopped(log, i)
    {
      assert log[..n][..i] == log[..i];
    }
  }

  /** Every START that the first loop pops is passed on to each scheduler and to each downstream host, ahead
      of everything else, and nothing else makes a START go out. */
  lemma StartsArePassedOn(cfg: Config, log: seq<Msg>)
    ensures var s, n := After(cfg, log), |set i | 0 <= i < |log| && StartPopped(log, i)|;
            && (forall j :: 0 <= j < |cfg.scheds| ==>
                  && |s.toScheds[j]| >= n
                  && forall k :: 0 <= k < |s.toScheds[j]| ==> (s.toScheds[j][k] == StartCmd <==> k < n))
            && (forall p :: 0 <= p < |cfg.proxies| && cfg.proxies[p].upstream ==>
                  && |s.toProxies[p]| >= n
                  && forall k :: 0 <= k < |s.toProxies[p]| ==> (s.toProxies[p][k] == Start <==> k < n))
            && forall p :: 0 <= p < |cfg.proxies| && !cfg.proxies[p].upstream ==> Start !in s.toProxies[p]
  {
    StartsCount(log);
    SentExactly(cfg, log);
  }

  lemma StartIsPassedOn(cfg: Config, log: seq<Msg>, i: nat)
    requires StartPopped(log, i)
    ensures forall j :: 0 <= j < |cfg.scheds| ==> StartCmd in After(cfg, log).toScheds[j]
    ensures forall p :: 0 <= p < |cfg.proxies| && cfg.proxies[p].upstream ==>
                          After(cfg, log).toProxies[p] != [] && After(cfg, log).toProxies[p][0] == Start
  {
    var all := set k | 0 <= k < |log| && StartPopped(log, k);
    assert i in all;
    StartsArePassedOn(cfg, log);
    forall j | 0 <= j < |cfg.scheds|
      ensures StartCmd in After(cfg, log).toScheds[j]
    {
      assert After(cfg, log).toScheds[j][0] == StartCmd;
    }
  }

  /** A monitor killed in its first loop has told all proxies to stop, its schedulers nothing but to start;
      one killed in its second loop has told everybody that it is done, and its downstream hosts to stop. */
  lemma KilledHasSent(cfg: Config, log: seq<Msg>)
    requires After(cfg, log).phase.Killed?
    ensures var s := After(cfg, log);
            && (forall p :: 0 <= p < |cfg.proxies| ==>
                  KilledTail(s.toProxies[p], s.phase.drained, cfg.proxies[p].upstream))
            && forall j :: 0 <= j < |cfg.scheds| ==>
                 ExitCmd !in s.toScheds[j] && (DoneCmd in s.toScheds[j] <==> s.phase.drained)
  {
    SentExactly(cfg, log);
  }

  /** A monitor that has exited has told everybody that it is done, and then its schedulers to exit, its
      downstream hosts to stop and its upstream hosts that all is flushed; one that still collects has only
      told everybody that it is done. */
  lemma DoneThenExit(cfg: Config, log: seq<Msg>)
    requires After(cfg, log).phase in {Draining, Exited}
    ensures var s := After(cfg, log);
            var exited := s.phase == Exited;
            && (forall p :: 0 <= p < |cfg.proxies| ==>
                  EndsWith(s.toProxies[p], if !exited then [Done]
                                           else if cfg.proxies[p].upstream then [Done, Kill] else [Done, Flushed]))
            && forall j :: 0 <= j < |cfg.scheds| ==>
                 EndsWith(s.toScheds[j], if exited then [DoneCmd, ExitCmd] else [DoneCmd])
  {
    SentExactly(cfg, log);
  }

  predicate EndsWith<T(==)>(s: seq<T>, end: seq<T>) {
    |end| <= |s| && s[|s| - |end|..] == end
  }

  predicate KilledTail(sent: seq<Kind>, drained: bool, up: bool) {
    var n := |sent|;
    if !drained then n >= 1 && sent[n - 1] == Kill && Done !in sent && Flushed !in sent
    else if up then n >= 2 && sent[n - 2] == Done && sent[n - 1] == Kill
    else n >= 1 && sent[n - 1] == Done && Kill !in sent
  }

  // ----- When a monitor exits

  /** `log` has its first DONE at `d`, before any KILL. */
  predicate FirstDone(log: seq<Msg>, d: nat) {
    d < |log| && log[d].kind == Done && !Has(log[..d], Done) && !Has(log[..d], Kill)
  }

  predicate NoKillBetween(log: seq<Msg>, d: nat, e: nat)
    requires e <= |log|
  {
    forall i :: d < i < e ==> log[i].kind != Kill
  }

  predicate FlushedBetween(log: seq<Msg>, id: int, d: nat, e: nat)
    requires e <= |log|
  {
    exists i :: d < i < e && log[i] == Msg(Flushed, id)
  }

  /** Everyone the monitor waits for: its schedulers and the hosts downstream. */
  predicate Required(cfg: Config, id: int) {
    || (exists j :: 0 <= j < |cfg.scheds| && cfg.scheds[j] == id)
    || (exists p :: 0 <= p < |cfg.proxies| && cfg.proxies[p].upstream && cfg.proxies[p].id == id)
  }

  ghost predicate EverybodyFlushed(cfg: Config, log: seq<Msg>, d: nat, e: nat)
    requires e <= |log|
  {
    forall id :: Required(cfg, id) ==> FlushedBetween(log, id, d, e)
  }

  lemma AllDoneIff(cfg: Config, schedDone: map<int, bool>)
    ensures AllDone(cfg, schedDone) <==> forall id :: Required(cfg, id) ==> IsDone(schedDone, id)
  {
    if forall id :: Required(cfg, id) ==> IsDone(schedDone, id) {
      forall j | 0 <= j < |cfg.scheds| ensures IsDone(schedDone, cfg.scheds[j]) {
        assert Required(cfg, cfg.scheds[j]);
      }
      forall p | 0 <= p < |cfg.proxies| && cfg.proxies[p].upstream ensures IsDone(schedDone, cfg.proxies[p].id) {
        assert Required(cfg, cfg.proxies[p].id);
      }
    }
  }

  /** After the first DONE at `d` and no KILL, a monitor that has not exited yet knows exactly who has
      flushed since, and that is not everybody. */
  ghost predicate DrainingSince(cfg: Config, log: seq<Msg>, d: nat) {
    var s := After(cfg, log);
    && s.phase == Draining
    && FirstDone(log, d) && NoKillBetween(log, d, |log|)
    && (forall id :: IsDone(s.schedDone, id) <==> FlushedBetween(log, id, d, |log|))
    && (AllDone(cfg, s.schedDone) ==> forall i :: d < i < |log| ==> log[i].kind != Flushed)
  }

  ghost predicate ExitedSince(cfg: Config, log: seq<Msg>, d: nat, e: nat) {
    && FirstDone(log, d) && d < e < |log| && log[e].kind == Flushed
    && NoKillBetween(log, d, e)
    && EverybodyFlushed(cfg, log, d, e + 1)
  }

  /** A monitor that is still collecting misses somebody (if it has a scheduler at all). */
  lemma StillWaitsFor(cfg: Config, log: seq<Msg>, d: nat)
    requires DrainingSince(cfg, log, d) && cfg.scheds != []
    ensures exists id :: Required(cfg, id) && !FlushedBetween(log, id, d, |log|)
  {
    if forall i :: d < i < |log| ==> log[i].kind != Flushed {
      assert Required(cfg, cfg.scheds[0]) && !FlushedBetween(log, cfg.scheds[0], d, |log|);
    } else {
      AllDoneIff(cfg, After(cfg, log).schedDone);
    }
  }

  lemma FirstDoneExtends(log: seq<Msg>, m: Msg, d: nat)
    requires FirstDone(log, d)
    ensures FirstDone(log + [m], d)
  {
    assert (log + [m])[..d] == log[..d];
  }

  lemma FlushedExtends(log: seq<Msg>, m: Msg, id: int, d: nat, e: nat)
    requires e <= |log|
    ensures FlushedBetween(log + [m], id, d, e) <==> FlushedBetween(log, id, d, e)
    ensures d < |log| ==>
              (FlushedBetween(log + [m], id, d, |log| + 1)
               <==> FlushedBetween(log, id, d, |log|) || m == Msg(Flushed, id))
  {
    var l := log + [m];
    assert forall i :: 0 <= i < |log| ==> l[i] == log[i];
    assert l[|log|] == m;
  }

  /** One more message in the second loop. */
  lemma DrainingStep(cfg: Config, log: seq<Msg>, m: Msg, d: nat)
    requires DrainingSince(cfg, log, d)
    ensures var t := After(cfg, log + [m]);
            match t.phase
            case Draining => DrainingSince(cfg, log + [m], d)
            case Exited => ExitedSince(cfg, log + [m], d, |log|) && m.kind == Flushed
            case Killed(_) => m.kind == Kill
            case Running => false
  {
    AfterOne(cfg, log, m);
    FirstDoneExtends(log, m, d);
    var t := After(cfg, log + [m]);
    forall id
      ensures FlushedBetween(log + [m], id, d, |log| + 1)
              <==> FlushedBetween(log, id, d, |log|) || m == Msg(Flushed, id)
    {
      FlushedExtends(log, m, id, d, |log|);
    }
    if m.kind == Flushed {
      var done := After(cfg, log).schedDone[m.schedId := true];
      AllDoneIff(cfg, done);
      assert forall id :: IsDone(done, id) <==> FlushedBetween(log + [m], id, d, |log| + 1);
    }
  }

  lemma FlushedUpTo(log: seq<Msg>, id: int, d: nat, e: nat)
    requires e < |log| && FlushedBetween(log, id, d, e + 1)
    ensures FlushedBetween(log[..e], id, d, e) || log[e] == Msg(Flushed, id)
  {
    var i :| d < i < e + 1 && log[i] == Msg(Flushed, id);
    assert i < e ==> log[..e][i] == log[i];
  }

  /** A monitor is killed exactly if a KILL was popped before it could exit, and then in its second loop exactly
      if there was a DONE before the first KILL. */
  lemma KilledIff(cfg: Config, log: seq<Msg>)
    ensures After(cfg, log).phase.Killed? <==> Has(log, Kill) && !exists d, e :: ExitedSince(cfg, log, d, e)
    ensures After(cfg, log).phase.Killed? ==>
              (After(cfg, log).phase == Killed(true) <==> exists d :: FirstDone(log, d))
  {
    PhaseHistory(cfg, log);
    RunningIff(cfg, log);
    ExitIff(cfg, log);
    KilledWhen(cfg, log);
    if After(cfg, log).phase == Killed(false) {
      var k :| 0 <= k < |log| && log[k].kind == Kill && !Has(log[..k], Done);
      NoFirstDone(log, k);
    }
    if After(cfg, log).phase == Draining {
      var d :| DrainingSince(cfg, log, d);
      NoKillAtAll(log, d);
    }
  }

  lemma NoFirstDone(log: seq<Msg>, k: nat)
    requires k < |log| && log[k].kind == Kill && !Has(log[..k], Done)
    ensures !exists d :: FirstDone(log, d)
  {
    forall d: nat | d < |log|
      ensures !FirstDone(log, d)
    {
      if d < k {
        HasAt(log, k, d);
      } else if k < d {
        HasAt(log, d, k);
      }
    }
  }

  lemma NoKillAtAll(log: seq<Msg>, d: nat)
    requires FirstDone(log, d) && NoKillBetween(log, d, |log|)
    ensures !Has(log, Kill)
  {
    forall i | 0 <= i < |log|
      ensures log[i].kind != Kill
    {
      assert i < d ==> log[..d][i] == log[i];
    }
  }

  lemma {:induction false} KilledWhen(cfg: Config, log: seq<Msg>)
    ensures After(cfg, log).phase == Killed(true) ==> exists d :: FirstDone(log, d)
    ensures After(cfg, log).phase == Killed(false) ==>
              exists k :: 0 <= k < |log| && log[k].kind == Kill && !Has(log[..k], Done)
  {
    if log != [] {
      var n := |log| - 1;
      var rest, m := log[..n], log[n];
      assert log == rest + [m];
      AfterOne(cfg, rest, m);
      KilledWhen(cfg, rest);
      match After(cfg, rest).phase
      case Running =>
        RunningIff(cfg, rest);
        assert log[..n] == rest;
      case Draining =>
        PhaseHistory(cfg, rest);
        var d :| DrainingSince(cfg, rest, d);
        FirstDoneExtends(rest, m, d);
      case Exited =>
      case Killed(drained) =>
        if drained {
          var d :| FirstDone(rest, d);
          FirstDoneExtends(rest, m, d);
        } else {
          var k :| 0 <= k < |rest| && rest[k].kind == Kill && !Has(rest[..k], Done);
          assert log[..k] == rest[..k] && log[k] == rest[k];
        }
    }
  }

  lemma LastFlushed(cfg: Config, log: seq<Msg>, d: nat, e: nat)
    requires e < |log| && log[e].kind == Flushed && EverybodyFlushed(cfg, log, d, e + 1)
    requires DrainingSince(cfg, log[..e], d)
    ensures After(cfg, log[..e + 1]).phase == Exited
  {
    var done := After(cfg, log[..e]).schedDone[log[e].schedId := true];
    forall id | Required(cfg, id)
      ensures IsDone(done, id)
    {
      FlushedUpTo(log, id, d, e);
    }
    AllDoneIff(cfg, done);
    AfterNext(cfg, log, e);
  }

  /** What each phase says about the log. */
  ghost predicate PhaseStory(cfg: Config, log: seq<Msg>) {
    match After(cfg, log).phase
    case Running => !Has(log, Done) && !Has(log, Kill)
    case Draining => exists d :: DrainingSince(cfg, log, d)
    case Exited => exists d, e :: ExitedSince(cfg, log, d, e)
    case Killed(_) => Has(log, Kill)
  }

  lemma {:induction false} PhaseHistory(cfg: Config, log: seq<Msg>)
    ensures PhaseStory(cfg, log)
  {
    RunningIff(cfg, log);
    if log != [] {
      var rest, m := log[..|log| - 1], log[|log| - 1];
      assert log == rest + [m];
      PhaseHistory(cfg, rest);
      match After(cfg, rest).phase
      case Running => RunningTurn(cfg, rest, m);
      case Draining => DrainingTurn(cfg, rest, m);
      case Exited => ExitedTurn(cfg, rest, m);
      case Killed(_) => AfterOne(cfg, rest, m);
    }
  }

  lemma RunningTurn(cfg: Config, log: seq<Msg>, m: Msg)
    requires After(cfg, log).phase == Running
    ensures PhaseStory(cfg, log + [m])
  {
    AfterOne(cfg, log, m);
    RunningIff(cfg, log + [m]);
    if m.kind == Done {
      StartsDraining(cfg, log, m);
    }
  }

  lemma DrainingTurn(cfg: Config, log: seq<Msg>, m: Msg)
    requires After(cfg, log).phase == Draining && PhaseStory(cfg, log)
    ensures PhaseStory(cfg, log + [m])
  {
    RunningIff(cfg, log + [m]);
    var d :| DrainingSince(cfg, log, d);
    DrainingStep(cfg, log, m, d);
  }

  lemma ExitedTurn(cfg: Config, log: seq<Msg>, m: Msg)
    requires After(cfg, log).phase == Exited && PhaseStory(cfg, log)
    ensures PhaseStory(cfg, log + [m])
  {
    AfterOne(cfg, log, m);
    var d, e :| ExitedSince(cfg, log, d, e);
    ExitedExtends(cfg, log, m, d, e);
  }

  lemma StartsDraining(cfg: Config, log: seq<Msg>, m: Msg)
    requires After(cfg, log).phase == Running && m.kind == Done
    ensures DrainingSince(cfg, log + [m], |log|)
  {
    AfterOne(cfg, log, m);
    RunningIff(cfg, log);
    assert (log + [m])[..|log|] == log;
  }

  lemma ExitedExtends(cfg: Config, log: seq<Msg>, m: Msg, d: nat, e: nat)
    requires ExitedSince(cfg, log, d, e)
    ensures ExitedSince(cfg, log + [m], d, e)
  {
    FirstDoneExtends(log, m, d);
    forall id | Required(cfg, id)
      ensures FlushedBetween(log + [m], id, d, e + 1)
    {
      FlushedExtends(log, m, id, d, e + 1);
    }
  }

  ghost predicate OnTheWay(cfg: Config, log: seq<Msg>, d: nat) {
    DrainingSince(cfg, log, d) || After(cfg, log).phase == Exited
  }

  lemma DrainsFrom(cfg: Config, log: seq<Msg>, d: nat)
    requires FirstDone(log, d)
    ensures OnTheWay(cfg, log[..d + 1], d)
  {
    RunningIff(cfg, log[..d]);
    StartsDraining(cfg, log[..d], log[d]);
    PrefixNext(log, d);
  }

  lemma DrainsOn(cfg: Config, log: seq<Msg>, d: nat, k: nat)
    requires 1 <= k <= |log| && log[k - 1].kind != Kill && OnTheWay(cfg, log[..k - 1], d)
    ensures OnTheWay(cfg, log[..k], d)
  {
    if After(cfg, log[..k - 1]).phase == Exited {
      AfterNext(cfg, log, k - 1);
    } else {
      DrainingStep(cfg, log[..k - 1], log[k - 1], d);
      PrefixNext(log, k - 1);
    }
  }

  lemma {:induction false} DrainsUntil(cfg: Config, log: seq<Msg>, d: nat, e: nat, k: nat)
    requires e <= |log| && FirstDone(log, d) && NoKillBetween(log, d, e) && d < k <= e
    ensures OnTheWay(cfg, log[..k], d)
  {
    if k == d + 1 {
      DrainsFrom(cfg, log, d);
    } else {
      DrainsUntil(cfg, log, d, e, k - 1);
      DrainsOn(cfg, log, d, k);
    }
  }

  lemma {:induction false} ExitIsFinal(cfg: Config, log: seq<Msg>, n: nat)
    requires n <= |log| && After(cfg, log[..n]).phase == Exited
    ensures After(cfg, log) == After(cfg, log[..n])
  {
    if n < |log| {
      var rest := log[..|log| - 1];
      assert rest[..n] == log[..n];
      ExitIsFinal(cfg, rest, n);
    } else {
      assert log[..n] == log;
    }
  }

  /** A monitor exits if and only if, after a DONE that no KILL came before, everyone it waits for has
      flushed and no KILL came before the last of them: in any order, with any repetitions, and with any
      other messages in between. */
  lemma ExitIff(cfg: Config, log: seq<Msg>)
    ensures After(cfg, log).phase == Exited <==> exists d, e :: ExitedSince(cfg, log, d, e)
  {
    PhaseHistory(cfg, log);
    if d: nat, e: nat :| ExitedSince(cfg, log, d, e) {
      LastFlushedExits(cfg, log, d, e);
    }
  }

  lemma LastFlushedExits(cfg: Config, log: seq<Msg>, d: nat, e: nat)
    requires ExitedSince(cfg, log, d, e)
    ensures After(cfg, log).phase == Exited
  {
    DrainsUntil(cfg, log, d, e, e);
    ExitsBy(cfg, log, d, e);
  }

  lemma ExitsBy(cfg: Config, log: seq<Msg>, d: nat, e: nat)
    requires e < |log| && log[e].kind == Flushed && EverybodyFlushed(cfg, log, d, e + 1)
    requires OnTheWay(cfg, log[..e], d)
    ensures After(cfg, log).phase == Exited
  {
    if DrainingSince(cfg, log[..e], d) {
      LastFlushed(cfg, log, d, e);
      ExitIsFinal(cfg, log, e + 1);
    } else {
      ExitIsFinal(cfg, log, e);
    }
  }

  /** Why ids must be unique: when all schedulers of a host have flushed, and nobody else has, its monitor
      exits if and only if every downstream host goes by an id that one of the schedulers has too. */
  lemma OwnFlushedSufficeIff(cfg: Config, log: seq<Msg>, d: nat)
    requires FirstDone(log, d) && NoKillBetween(log, d, |log|) && log[|log| - 1].kind == Flushed
    requires forall i :: d < i < |log| && log[i].kind == Flushed ==> log[i].schedId in cfg.scheds
    requires forall j :: 0 <= j < |cfg.scheds| ==> FlushedBetween(log, cfg.scheds[j], d, |log|)
    ensures After(cfg, log).phase == Exited
            <==> forall p :: 0 <= p < |cfg.proxies| && cfg.proxies[p].upstream ==> cfg.proxies[p].id in cfg.scheds
  {
    ExitIff(cfg, log);
    if After(cfg, log).phase == Exited {
      var d': nat, e: nat :| ExitedSince(cfg, log, d', e);
      FirstDoneIsUnique(log, d, d');
      forall p | 0 <= p < |cfg.proxies| && cfg.proxies[p].upstream
        ensures cfg.proxies[p].id in cfg.scheds
      {
        assert Required(cfg, cfg.proxies[p].id);
        assert FlushedBetween(log, cfg.proxies[p].id, d, e + 1);
      }
    }
    if forall p :: 0 <= p < |cfg.proxies| && cfg.proxies[p].upstream ==> cfg.proxies[p].id in cfg.scheds {
      assert forall id :: Required(cfg, id) ==> id in cfg.scheds;
      assert ExitedSince(cfg, log, d, |log| - 1);
    }
  }

  /** Ids as they come of adding a proxy while the default scheduler is in place, and then two schedulers: the
      proxy keeps 2. The monitor exits before the downstream host has reported anything. */
  lemma OwnFlushedSuffice()
    ensures var cfg := Config([1, 2], [Proxy(2, true)]);
            var log := [Msg(Done, 1), Msg(Flushed, 1), Msg(Flushed, 2)];
            After(cfg, log).phase == Exited
  {
    var cfg := Config([1, 2], [Proxy(2, true)]);
    var log := [Msg(Done, 1), Msg(Flushed, 1), Msg(Flushed, 2)];
    assert log[..0] == [] && log[1] == Msg(Flushed, 1) && log[2] == Msg(Flushed, 2);
    assert FirstDone(log, 0) && FlushedBetween(log, 1, 0, 3) && FlushedBetween(log, 2, 0, 3);
    OwnFlushedSufficeIff(cfg, log, 0);
  }

  lemma FirstDoneIsUnique(log: seq<Msg>, d: nat, d': nat)
    requires FirstDone(log, d) && FirstDone(log, d')
    ensures d == d'
  {
    if d < d' {
      HasAt(log, d', d);
    } else if d' < d {
      HasAt(log, d, d');
    }
  }

  lemma HasAt(log: seq<Msg>, n: nat, i: nat)
    requires i < n <= |log|
    ensures Has(log[..n], log[i].kind)
  {
    assert log[..n][i] == log[i];
  }

  /** Once everyone has flushed, each scheduler has been sent exactly one EXIT, each proxy exactly one
      DONE, each downstream host exactly one KILL and each upstream host exactly one FLUSHED. */
  lemma ExitSendsOnce(cfg: Config, log: seq<Msg>)
    requires After(cfg, log).phase == Exited
    ensures forall j :: 0 <= j < |cfg.scheds| ==>
                          var sent := multiset(After(cfg, log).toScheds[j]);
                          sent[ExitCmd] == 1 && sent[DoneCmd] == 1
    ensures forall p :: 0 <= p < |cfg.proxies| ==>
                          var sent := multiset(After(cfg, log).toProxies[p]);
                          && sent[Done] == 1
                          && sent[Kill] == (if cfg.proxies[p].upstream then 1 else 0)
                          && sent[Flushed] == (if cfg.proxies[p].upstream then 0 else 1)
  {
    SentExactly(cfg, log);
    forall j | 0 <= j < |cfg.scheds|
      ensures var sent := multiset(After(cfg, log).toScheds[j]);
              sent[ExitCmd] == 1 && sent[DoneCmd] == 1
    {
      TailCount(StartCmd, Starts(log), SchedTail(Exited), ExitCmd);
      TailCount(StartCmd, Starts(log), SchedTail(Exited), DoneCmd);
      PairCount(DoneCmd, ExitCmd);
    }
    forall p | 0 <= p < |cfg.proxies|
      ensures var sent := multiset(After(cfg, log).toProxies[p]);
              && sent[Done] == 1
              && sent[Kill] == (if cfg.proxies[p].upstream then 1 else 0)
              && sent[Flushed] == (if cfg.proxies[p].upstream then 0 else 1)
    {
      var up := cfg.proxies[p].upstream;
      var starts := if up then Starts(log) else 0;
      TailCount(Start, starts, ProxyTail(Exited, up), Done);
      TailCount(Start, starts, ProxyTail(Exited, up), Kill);
      TailCount(Start, starts, ProxyTail(Exited, up), Flushed);
      PairCount(Done, if up then Kill else Flushed);
    }
  }

  /** The repeated starts do not add to the count of anything else. */
  lemma TailCount<T>(x: T, n: nat, tail: seq<T>, y: T)
    requires y != x
    ensures multiset(Repeat(x, n) + tail)[y] == multiset(tail)[y]
  {
    assert y !in Repeat(x, n);
  }

  lemma PairCount<T>(x: T, y: T)
    requires x != y
    ensures forall z :: multiset([x, y])[z] == if z == x || z == y then 1 else 0
  {
  }

  lemma SingleCount<T>(x: T)
    ensures forall z :: multiset([x])[z] == if z == x then 1 else 0
  {
  }

  lemma OneDoneInTail(phase: Phase, up: bool)
    ensures multiset(ProxyTail(phase, up))[Done] <= 1
  {
    SingleCount(Done);
    SingleCount(Kill);
    PairCount(Done, Kill);
    PairCount(Done, Flushed);
  }

  /** DONE is forwarded at most once over each proxy, whatever arrives. */
  lemma DoneSentAtMostOnce(cfg: Config, log: seq<Msg>, p: nat)
    requires p < |cfg.proxies|
    ensures multiset(After(cfg, log).toProxies[p])[Done] <= 1
  {
    SentExactly(cfg, log);
    var up := cfg.proxies[p].upstream;
    TailCount(Start, if up then Starts(log) else 0, ProxyTail(After(cfg, log).phase, up), Done);
    OneDoneInTail(After(cfg, log).phase, up);
  }

  // ----- The monitor thread

  class RuntimeMonitor {
    const cfg: Config
    var stopped: bool
    var toScheds: seq<seq<Command>>
    var toProxies: seq<seq<Kind>>

    constructor (cfg: Config)
      ensures this.cfg == cfg && !stopped
      ensures toScheds == Init(cfg).toScheds && toProxies == Init(cfg).toProxies
    {
      this.cfg, stopped := cfg, false;
      toScheds, toProxies := Init(cfg).toScheds, Init(cfg).toProxies;
    }

    method PushToSchedulers(c: Command)
      modifies this`toScheds
      ensures toScheds == TellScheds(old(toScheds), c)
    {
      for j := 0 to |toScheds|
        invariant |toScheds| == |old(toScheds)|
        invariant forall i :: 0 <= i < |toScheds| ==>
                                toScheds[i] == if i < j then old(toScheds)[i] + [c] else old(toScheds)[i]
      {
        toScheds := toScheds[j := toScheds[j] + [c]];
      }
    }

    method PushToProxies(up: bool, k: Kind)
      requires |toProxies| == |cfg.proxies|
      modifies this`toProxies
      ensures toProxies == Send(cfg, old(toProxies), up, k)
    {
      for p := 0 to |cfg.proxies|
        invariant |toProxies| == |old(toProxies)|
        invariant forall i :: 0 <= i < |toProxies| ==>
                                toProxies[i] == if i < p && cfg.proxies[i].upstream == up
                                                then old(toProxies)[i] + [k] else old(toProxies)[i]
      {
        if cfg.proxies[p].upstream == up {
          toProxies := toProxies[p := toProxies[p] + [k]];
        }
      }
    }

    method NewSchedDone() returns (schedDone: map<int, bool>)
      ensures schedDone == NoneDone(cfg)
      ensures schedDone.Keys == (set s | s in cfg.scheds) + set p | p in cfg.proxies :: p.id
      ensures forall id :: id in schedDone ==> !schedDone[id]
    {
      schedDone := map[];
      for j := 0 to |cfg.scheds|
        invariant schedDone.Keys == set s | s in cfg.scheds[..j]
        invariant forall id :: id in schedDone ==> !schedDone[id]
      {
        assert cfg.scheds[..j + 1] == cfg.scheds[..j] + [cfg.scheds[j]];
        schedDone := schedDone[cfg.scheds[j] := false];
      }
      assert cfg.scheds[..|cfg.scheds|] == cfg.scheds;
      for p := 0 to |cfg.proxies|
        invariant schedDone.Keys == (set s | s in cfg.scheds) + set q | q in cfg.proxies[..p] :: q.id
        invariant forall id :: id in schedDone ==> !schedDone[id]
      {
        assert cfg.proxies[..p + 1] == cfg.proxies[..p] + [cfg.proxies[p]];
        schedDone := schedDone[cfg.proxies[p].id := false];
      }
      assert cfg.proxies[..|cfg.proxies|] == cfg.proxies;
      assert schedDone.Keys == Ids(cfg) == NoneDone(cfg).Keys;
      assert forall id :: id in schedDone ==> schedDone[id] == NoneDone(cfg)[id];
    }

    method EverybodyDone(schedDone: map<int, bool>) returns (all: bool)
      ensures all == AllDone(cfg, schedDone)
    {
      all := true;
      for j := 0 to |cfg.scheds|
        invariant all == forall i :: 0 <= i < j ==> IsDone(schedDone, cfg.scheds[i])
      {
        if !IsDone(schedDone, cfg.scheds[j]) {
          all := false;
        }
      }
      ghost var scheds := all;
      for p := 0 to |cfg.proxies|
        invariant all == (scheds && forall i :: 0 <= i < p && cfg.proxies[i].upstream ==>
                                                  IsDone(schedDone, cfg.proxies[i].id))
      {
        if cfg.proxies[p].upstream && !IsDone(schedDone, cfg.proxies[p].id) {
          all := false;
        }
      }
    }

    ghost predicate Sent(s: State)
      reads this
    {
      toScheds == s.toScheds && toProxies == s.toProxies
      && (stopped <==> s.phase == Exited || s.phase.Killed?)
    }

    /** The thread: it pops until it stops, or blocks because `queue` is all there is. */
    method Execute(queue: seq<Msg>) returns (popped: nat)
      requires !stopped && Sent(Init(cfg))
      modifies this
      ensures popped <= |queue| && Sent(After(cfg, queue[..popped]))
      ensures var s := After(cfg, queue[..popped]);
              && toScheds == s.toScheds && toProxies == s.toProxies
              && (stopped <==> s.phase == Exited || s.phase.Killed?)
      ensures !stopped ==> popped == |queue|
    {
      var draining;
      popped, draining := WaitForDone(queue);
      if !draining {
        return;
      }
      var schedDone := NewSchedDone();
      ghost var s := After(cfg, queue[..popped]);
      while !stopped && popped < |queue|
        invariant popped <= |queue| && Shaped(cfg, s) && Sent(s) && (!stopped ==> Collects(s, schedDone))
        invariant s == After(cfg, queue[..popped])
        decreases |queue| - popped
      {
        AfterNext(cfg, queue, popped);
        schedDone := OnDraining(queue[popped], schedDone, s);
        s, popped := Handle(cfg, s, queue[popped]), popped + 1;
      }
    }

    ghost predicate Collects(s: State, schedDone: map<int, bool>) {
      s.phase == Draining && s.schedDone == schedDone
    }

    /** One message of the second loop. */
    method OnDraining(msg: Msg, schedDone: map<int, bool>, ghost s: State) returns (next: map<int, bool>)
      requires Shaped(cfg, s) && Collects(s, schedDone) && Sent(s)
      modifies this
      ensures Sent(Handle(cfg, s, msg))
      ensures !stopped ==> Collects(Handle(cfg, s, msg), next)
    {
      next := schedDone;
      if msg.kind == Kill {
        stopped := true;
        PushToProxies(true, Kill);
      } else if msg.kind == Flushed {
        next := schedDone[msg.schedId := true];
        var all := EverybodyDone(next);
        if all {
          PushToProxies(false, Flushed);
          PushToSchedulers(ExitCmd);
          PushToProxies(true, Kill);
          stopped := true;
        }
      }
    }

    /** The first loop. */
    method WaitForDone(queue: seq<Msg>) returns (popped: nat, draining: bool)
      requires !stopped && Sent(Init(cfg))
      modifies this
      ensures popped <= |queue| && Sent(After(cfg, queue[..popped]))
      ensures draining ==> Collects(After(cfg, queue[..popped]), NoneDone(cfg))
      ensures !draining && !stopped ==> popped == |queue|
    {
      popped, draining := 0, false;
      while !stopped && !draining && popped < |queue|
        invariant popped <= |queue| && Sent(After(cfg, queue[..popped]))
        invariant !stopped && !draining ==> After(cfg, queue[..popped]).phase == Running
        invariant draining ==> Collects(After(cfg, queue[..popped]), NoneDone(cfg))
        decreases |queue| - popped
      {
        ghost var s := After(cfg, queue[..popped]);
        AfterNext(cfg, queue, popped);
        draining := OnRunning(queue[popped], s);
        popped := popped + 1;
      }
    }

    /** One message of the first loop. */
    method OnRunning(msg: Msg, ghost s: State) returns (draining: bool)
      requires Shaped(cfg, s) && s.phase == Running && Sent(s)
      modifies this
      ensures Sent(Handle(cfg, s, msg))
      ensures draining ==> Collects(Handle(cfg, s, msg), NoneDone(cfg))
      ensures !draining && !stopped ==> Handle(cfg, s, msg).phase == Running
    {
      draining := false;
      if msg.kind == Kill {
        stopped := true;
        PushToProxies(true, Kill);
        PushToProxies(false, Kill);
      } else if msg.kind == Start {
        PushToSchedulers(StartCmd);
        PushToProxies(true, Start);
      } else if msg.kind == Done {
        PushToSchedulers(DoneCmd);
        PushToProxies(true, Done);
        PushToProxies(false, Done);
        draining := true;
      }
    }
  }
}
