/** The lock-free generation counter RecoveryControl on its own (src/audio/recovery.rs:19-79): any number of
    clients interleave begin, finish and cancel, whose load and compare-exchange are separate steps, with
    no lock at all. A recovery is under way while the counter is odd, and that odd number is its token. */
module RecoveryControl {
  /** A client between calls, after the load of begin or cancel, or holding a lease. */
  datatype Client = Free | BeginLoaded(idle: nat) | CancelLoaded(seen: nat) | Lease(token: nat)

  /** `issued` lists the tokens handed out so far, oldest first. */
  datatype Control = Control(state: nat, clients: map<nat, Client>, issued: seq<nat>)

  datatype Event = Begin(c: nat) | Cancel(c: nat) | Exchange(c: nat) | Finish(c: nat) | DropLease(c: nat)

  function Of(s: Control, c: nat): Client {
    if c in s.clients then s.clients[c] else Free
  }

  function Set(s: Control, c: nat, x: Client): Control {
    s.(clients := s.clients[c := x])
  }

  function CompareExchange(s: Control, expected: nat, next: nat): Control {
    if s.state == expected then s.(state := next) else s
  }

  function Step(s: Control, e: Event): Control {
    var x := Of(s, e.c);
    match e
    case Begin(c) => if x.Free? && s.state % 2 == 0 then Set(s, c, BeginLoaded(s.state)) else s
    case Cancel(c) => if x.Free? then Set(s, c, CancelLoaded(s.state)) else s
    case Exchange(c) =>
      (match x
       case BeginLoaded(idle) =>
         if s.state == idle
         then Set(s.(state := idle + 1, issued := s.issued + [idle + 1]), c, Lease(idle + 1))
         else Set(s, c, Free)
       case CancelLoaded(seen) =>
         Set(if seen % 2 == 1 then CompareExchange(s, seen, seen + 1) else s, c, Free)
       case _ => s)
    case Finish(_) => if x.Lease? then CompareExchange(s, x.token, x.token + 1) else s
    case DropLease(c) => if x.Lease? then Set(CompareExchange(s, x.token, x.token + 1), c, Free) else s
  }

  function Run(s: Control, events: seq<Event>): Control
    decreases |events|
  {
    if events == [] then s else Run(Step(s, events[0]), events[1..])
  }

  const START := Control(0, map[], [])

  /** The tokens handed out are odd, increasing and not ahead of the counter. */
  predicate Ascending(issued: seq<nat>, state: nat) {
    && (forall i | 0 <= i < |issued| :: issued[i] % 2 == 1 && issued[i] <= state)
    && (forall i, j | 0 <= i < j < |issued| :: issued[i] < issued[j])
    && (state % 2 == 1 ==> state in issued)
  }

  predicate ClientsOk(clients: map<nat, Client>, issued: seq<nat>) {
    && (forall c | c in clients && clients[c].Lease? :: clients[c].token in issued)
    && (forall c | c in clients && clients[c].BeginLoaded? :: clients[c].idle % 2 == 0)
    && (forall c, d | c in clients && d in clients && clients[c].Lease? && clients[d].Lease?
                      && clients[c].token == clients[d].token :: c == d)
  }

  predicate Inv(s: Control) {
    Ascending(s.issued, s.state) && ClientsOk(s.clients, s.issued)
  }

  lemma LastIsLargest(issued: seq<nat>, state: nat)
    requires Ascending(issued, state) && issued != []
    ensures forall g | g in issued :: g <= issued[|issued| - 1]
  {
  }

  lemma IssueAscending(issued: seq<nat>, state: nat)
    requires Ascending(issued, state) && state % 2 == 0
    ensures Ascending(issued + [state + 1], state + 1) && state + 1 !in issued
  {
    assert (issued + [state + 1])[|issued|] == state + 1;
  }

  lemma IssueClients(clients: map<nat, Client>, issued: seq<nat>, c: nat, token: nat)
    requires ClientsOk(clients, issued) && token !in issued
    ensures ClientsOk(clients[c := Lease(token)], issued + [token])
  {
    assert token in issued + [token];
    forall g | g in issued ensures g in issued + [token] {}
  }

  lemma IssueKeepsInv(s: Control, c: nat)
    requires Inv(s) && Of(s, c) == BeginLoaded(s.state)
    ensures Inv(Step(s, Exchange(c)))
  {
    IssueAscending(s.issued, s.state);
    IssueClients(s.clients, s.issued, c, s.state + 1);
  }

  lemma StepKeepsInv(s: Control, e: Event)
    requires Inv(s)
    ensures Inv(Step(s, e))
    ensures s.state <= Step(s, e).state <= s.state + 1
  {
    if e.Exchange? && Of(s, e.c) == BeginLoaded(s.state) {
      IssueKeepsInv(s, e.c);
    } else {
      assert Step(s, e).issued == s.issued;
    }
  }

  lemma {:induction false} RunKeepsInv(s: Control, events: seq<Event>)
    requires Inv(s)
    ensures Inv(Run(s, events)) && s.state <= Run(s, events).state
    decreases |events|
  {
    if events != [] {
      StepKeepsInv(s, events[0]);
      RunKeepsInv(Step(s, events[0]), events[1..]);
    }
  }

  /** Every token is handed out at most once, in increasing order, and held by at most one lease; so at
      most one lease is current at any time. */
  lemma TokensAreUnique(events: seq<Event>)
    ensures var s := Run(START, events);
            && (forall i, j | 0 <= i < j < |s.issued| :: s.issued[i] < s.issued[j])
            && (forall c, d | c in s.clients && d in s.clients && s.clients[c].Lease? && s.clients[d].Lease?
                              && s.clients[c].token == s.state && s.clients[d].token == s.state :: c == d)
            && (s.state % 2 == 1 <==> |s.issued| > 0 && s.issued[|s.issued| - 1] == s.state)
  {
    RunKeepsInv(START, events);
    var s := Run(START, events);
    if s.state % 2 == 1 {
      LastIsLargest(s.issued, s.state);
    }
  }

  /** A token that was issued and is no longer current never becomes current again. */
  lemma DeadTokensStayDead(before: seq<Event>, after: seq<Event>, g: nat)
    requires var s := Run(START, before); g in s.issued && g != s.state
    ensures Run(Run(START, before), after).state != g
  {
    RunKeepsInv(START, before);
    RunKeepsInv(Run(START, before), after);
  }

  /** finish by a lease whose token is not current changes nothing, so a stale recovery cannot end a later one. */
  lemma LateFinishIsInert(s: Control, c: nat)
    requires c in s.clients && s.clients[c].Lease?
    ensures s.clients[c].token != s.state ==> Step(s, Finish(c)) == s
    ensures s.clients[c].token == s.state ==> Step(s, Finish(c)).state == s.state + 1
    ensures Step(s, DropLease(c)).state == Step(s, Finish(c)).state
  {
  }

  /** A begin that no one interrupts succeeds exactly when no recovery is under way, with the next token. */
  lemma BeginWorks(s: Control, c: nat)
    requires Inv(s) && Of(s, c).Free?
    ensures var t := Step(Step(s, Begin(c)), Exchange(c));
            if s.state % 2 == 0
            then Of(t, c) == Lease(s.state + 1) && t.state == s.state + 1 && t.issued == s.issued + [s.state + 1]
            else t.state == s.state && Of(t, c).Free? && t.issued == s.issued
  {
  }

  /** A cancel that no one interrupts ends the recovery under way, if there is one, and nothing else. */
  lemma CancelWorks(s: Control, c: nat)
    requires Inv(s) && Of(s, c).Free?
    ensures var t := Step(Step(s, Cancel(c)), Exchange(c));
            t.state == s.state + s.state % 2 && t.issued == s.issued && Of(t, c).Free?
            && forall d | d != c :: Of(t, d) == Of(s, d)
  {
  }

  /** Without the operation lock a cancel can leave a recovery current: exactly when its exchange finds a
      token other than the one it loaded, that is, when another begin succeeded in between. */
  lemma CancelWithoutLock(s: Control, c: nat)
    requires Inv(s) && c in s.clients && s.clients[c].CancelLoaded?
    ensures Step(s, Exchange(c)).state % 2 == 1 <==> s.state in s.issued && s.state != s.clients[c].seen
  {
    forall g | g in s.issued ensures g % 2 == 1 {}
  }

  /** One such run: client 1 loads token 1, client 0 finishes it, client 2 begins again, client 1 exchanges. */
  lemma CancelCanBeOvertaken()
    ensures Run(START, [Begin(0), Exchange(0), Cancel(1), Finish(0), Begin(2), Exchange(2), Exchange(1)]).state == 3
  {
    var s1 := Step(Step(START, Begin(0)), Exchange(0));
    var s2 := Step(Step(s1, Cancel(1)), Finish(0));
    var s3 := Step(Step(s2, Begin(2)), Exchange(2));
    assert s1.state == 1 && s2.state == 2 && s3.state == 3;
    assert Step(s3, Exchange(1)).state == 3;
    var e := [Begin(0), Exchange(0), Cancel(1), Finish(0), Begin(2), Exchange(2), Exchange(1)];
    assert Run(START, e) == Run(s1, e[2..]) by { assert e[1..][1..] == e[2..]; }
    assert Run(s1, e[2..]) == Run(s2, e[4..]) by { assert e[2..][1..][1..] == e[4..]; }
    assert Run(s2, e[4..]) == Run(s3, e[6..]) by { assert e[4..][1..][1..] == e[6..]; }
  }
}
