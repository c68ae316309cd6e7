/**
 * The checker of security/OTPChecker.c over whole runs: which passwords it accepts, told from the events alone. In
 * particular a password is never accepted more often than the newest seed of its number holds it.
 */
module OtpRuns {
  import opened Common
  import opened OtpTable
  import opened OtpObjects

  /** The seeds known, newest first, and the number of the seed whose passwords are being generated. */
  datatype Checker = Checker(seeds: seq<Seed>, pending: Option<nat>)

  const CHECKER_INIT := Checker([], None)

  /** A seed is given, its passwords are ready, all seeds are removed, or a password is checked. */
  datatype Event = Add(id: nat) | Ready(otps: seq<nat>) | Remove | Check(id: nat, otp: nat)

  ghost predicate Enabled(c: Checker, e: Event) {
    e.Ready? ==> c.pending.Some?
  }

  /** `n` is the number of tables. */
  ghost function Step(n: nat, c: Checker, e: Event): Checker
    requires n > 0 && Enabled(c, e)
  {
    match e
    case Add(id) => Checker(if |c.seeds| == n then c.seeds[..n - 1] else c.seeds, Some(id))
    case Ready(otps) => Checker([Seed(c.pending.value, multiset(otps))] + c.seeds, None)
    case Remove => CHECKER_INIT
    case Check(id, otp) => c.(seeds := UseOtp(c.seeds, id, otp))
  }

  /** `h` are the events so far, oldest first. */
  ghost predicate History(n: nat, h: seq<Event>)
    requires n > 0
    decreases |h|, 0
  {
    h != [] ==> History(n, h[..|h| - 1]) && Enabled(After(n, h[..|h| - 1]), h[|h| - 1])
  }

  ghost function After(n: nat, h: seq<Event>): Checker
    requires n > 0 && History(n, h)
    decreases |h|, 1
  {
    if h == [] then CHECKER_INIT else Step(n, After(n, h[..|h| - 1]), h[|h| - 1])
  }

  // ---- an account of the events ----

  /** The seed being generated after `h`. */
  function Generating(h: seq<Event>): Option<nat> {
    if h == [] then None
    else
      match h[|h| - 1]
      case Add(id) => Some(id)
      case Check(_, _) => Generating(h[..|h| - 1])
      case _ => None
  }

  /**
   * The newest seed of a number: how many seeds were generated after it, its passwords, and how often each of them was
   * checked since. `None` if there was none since all seeds were last removed.
   */
  datatype Issue = Issue(age: nat, bag: multiset<nat>, checked: multiset<nat>)

  function Newest(h: seq<Event>, id: nat): Option<Issue> {
    if h == [] then None
    else
      var before, e := h[..|h| - 1], h[|h| - 1];
      var r := Newest(before, id);
      match e
      case Add(_) => r
      case Ready(otps) =>
        if Generating(before) == Some(id) then Some(Issue(0, multiset(otps), multiset{}))
        else if r.Some? then Some(r.value.(age := r.value.age + 1))
        else None
      case Remove => None
      case Check(i, otp) =>
        if i == id && r.Some? then Some(r.value.(checked := r.value.checked + multiset{otp})) else r
  }

  /** The seed still has its table: the tables of newer seeds, one being generated included, leave room for it. */
  predicate Kept(n: nat, h: seq<Event>, id: nat) {
    var r := Newest(h, id);
    r.Some? && r.value.age + (if Generating(h).Some? then 1 else 0) < n
  }

  /** The checker knows what the account says. */
  ghost predicate Agrees(n: nat, c: Checker, h: seq<Event>, id: nat) {
    if Kept(n, h, id) then
      var r := Newest(h, id).value;
      Find(c.seeds, id) == Some(r.age) && r.age < |c.seeds| && c.seeds[r.age].bag == r.bag - r.checked
    else Find(c.seeds, id) == None
  }

  ghost predicate Bounded(n: nat, c: Checker, h: seq<Event>) {
    && |c.seeds| + (if c.pending.Some? then 1 else 0) <= n
    && c.pending == Generating(h)
  }

  lemma {:induction false} FindCons(s: Seed, seeds: seq<Seed>, id: nat)
    ensures Find([s] + seeds, id) ==
              if s.id == id then Some(0) else if Find(seeds, id).Some? then Some(Find(seeds, id).value + 1) else None
  {
    assert ([s] + seeds)[1..] == seeds;
  }

  lemma {:induction false} FindTake(seeds: seq<Seed>, id: nat, k: nat)
    requires k <= |seeds|
    ensures Find(seeds[..k], id) ==
              if Find(seeds, id).Some? && Find(seeds, id).value < k then Find(seeds, id) else None
    decreases |seeds|
  {
    if k > 0 {
      assert seeds == [seeds[0]] + seeds[1..] && seeds[..k] == [seeds[0]] + seeds[1..][..k - 1];
      FindTake(seeds[1..], id, k - 1);
      FindCons(seeds[0], seeds[1..], id);
      FindCons(seeds[0], seeds[1..][..k - 1], id);
    }
  }

  /** Using up a password leaves the numbers of the seeds as they are. */
  lemma {:induction false} FindSame(a: seq<Seed>, b: seq<Seed>, id: nat)
    requires |a| == |b| && forall i :: 0 <= i < |a| ==> a[i].id == b[i].id
    ensures Find(a, id) == Find(b, id)
    decreases |a|
  {
    if a != [] {
      FindSame(a[1..], b[1..], id);
      assert a == [a[0]] + a[1..] && b == [b[0]] + b[1..];
      FindCons(a[0], a[1..], id);
      FindCons(b[0], b[1..], id);
    }
  }

  lemma AgreesAdd(n: nat, c: Checker, h: seq<Event>, e: Event, id: nat)
    requires n > 0 && Bounded(n, c, h) && Agrees(n, c, h, id) && e.Add?
    ensures Agrees(n, Step(n, c, e), h + [e], id)
  {
    assert (h + [e])[..|h|] == h;
    if |c.seeds| == n {
      FindTake(c.seeds, id, n - 1);
    }
  }

  lemma AgreesReady(n: nat, c: Checker, h: seq<Event>, e: Event, id: nat)
    requires n > 0 && Bounded(n, c, h) && Agrees(n, c, h, id) && e.Ready? && c.pending.Some?
    ensures Agrees(n, Step(n, c, e), h + [e], id)
  {
    assert (h + [e])[..|h|] == h;
    var s := Seed(c.pending.value, multiset(e.otps));
    FindCons(s, c.seeds, id);
    hide Find;
    assert multiset(e.otps) - multiset{} == multiset(e.otps);
  }

  lemma AgreesCheck(n: nat, c: Checker, h: seq<Event>, e: Event, id: nat)
    requires n > 0 && Agrees(n, c, h, id) && e.Check?
    ensures Agrees(n, Step(n, c, e), h + [e], id)
  {
    assert (h + [e])[..|h|] == h;
    hide Find;
    FindSame(UseOtp(c.seeds, e.id, e.otp), c.seeds, id);
    if Kept(n, h, id) && e.id == id {
      var r := Newest(h, id).value;
      assert r.bag - r.checked - multiset{e.otp} == r.bag - (r.checked + multiset{e.otp});
    }
  }

  lemma StepAgrees(n: nat, c: Checker, h: seq<Event>, e: Event, id: nat)
    requires n > 0 && Bounded(n, c, h) && Agrees(n, c, h, id) && Enabled(c, e)
    ensures Bounded(n, Step(n, c, e), h + [e]) && Agrees(n, Step(n, c, e), h + [e], id)
  {
    hide Agrees, Find;
    assert (h + [e])[..|h|] == h;
    match e {
      case Add(_) => AgreesAdd(n, c, h, e, id);
      case Ready(_) => AgreesReady(n, c, h, e, id);
      case Remove => NothingKnown(n, h, id);
      case Check(_, _) => AgreesCheck(n, c, h, e, id);
    }
  }

  lemma NothingKnown(n: nat, h: seq<Event>, id: nat)
    ensures Agrees(n, CHECKER_INIT, h + [Remove], id)
  {
    assert (h + [Remove])[..|h|] == h;
  }

  lemma {:induction false} RunAgrees(n: nat, h: seq<Event>, id: nat)
    requires n > 0 && History(n, h)
    ensures Bounded(n, After(n, h), h) && Agrees(n, After(n, h), h, id)
    decreases |h|
  {
    if h != [] {
      hide Step, Bounded, Agrees, Enabled;
      var before, e := h[..|h| - 1], h[|h| - 1];
      RunAgrees(n, before, id);
      StepAgrees(n, After(n, before), before, e, id);
      assert before + [e] == h;
    }
  }

  // ---- what is accepted ----

  /**
   * After any run a password is accepted if and only if the newest seed of its number still has its table and the
   * password was checked under that seed less often than the seed holds it.
   */
  lemma AcceptedExactlyIf(n: nat, h: seq<Event>, id: nat, otp: nat)
    requires n > 0 && History(n, h)
    ensures Knows(After(n, h).seeds, id, otp) <==>
              Kept(n, h, id) && Newest(h, id).value.checked[otp] < Newest(h, id).value.bag[otp]
  {
    hide After, History, Find, Newest;
    RunAgrees(n, h, id);
  }

  /** How often a password was accepted under the newest seed of its number. */
  ghost function Accepts(n: nat, h: seq<Event>, id: nat, otp: nat): nat
    requires n > 0 && History(n, h)
  {
    if h == [] then 0
    else
      var before, e := h[..|h| - 1], h[|h| - 1];
      match e
      case Ready(_) => if Generating(before) == Some(id) then 0 else Accepts(n, before, id, otp)
      case Remove => 0
      case Add(_) => Accepts(n, before, id, otp)
      case Check(i, v) =>
        Accepts(n, before, id, otp) + if i == id && v == otp && Knows(After(n, before).seeds, i, v) then 1 else 0
  }

  /**
   * Replays are refused: in every run, with seeds added, generated and removed at any time, a password is accepted at
   * most as often as the newest seed of its number holds it, and at most as often as it was checked since.
   */
  lemma {:induction false} ReplayRefused(n: nat, h: seq<Event>, id: nat, otp: nat)
    requires n > 0 && History(n, h)
    ensures var r := Newest(h, id);
      if r.None? then Accepts(n, h, id, otp) == 0
      else Accepts(n, h, id, otp) <= r.value.bag[otp] && Accepts(n, h, id, otp) <= r.value.checked[otp]
    decreases |h|
  {
    if h != [] {
      var before, e := h[..|h| - 1], h[|h| - 1];
      ReplayRefused(n, before, id, otp);
      if e.Check? {
        AcceptedExactlyIf(n, before, id, otp);
      }
    }
  }

  // ---- the object ----

  ghost function StateOf(c: OTPChecker): Checker
    requires c.Shape()
    reads c
  {
    Checker(c.View(), if c.twHave then Some(c.ids[c.nextTable]) else None)
  }

  /** The checker takes exactly these steps; `ok` is its answer to a password. */
  method Drive(c: OTPChecker, e: Event) returns (ok: bool)
    requires c.Valid() && Enabled(StateOf(c), e) && (e.Ready? ==> |e.otps| == c.numOtps)
    modifies c, c.tables
    ensures c.Valid() && StateOf(c) == Step(|c.tables|, old(StateOf(c)), e)
    ensures e.Check? ==> ok == Knows(old(StateOf(c)).seeds, e.id, e.otp)
  {
    hide ArrayOk, LiveOk, SeedsOf, Find;
    ok := false;
    match e {
      case Add(id) => c.AddSeed(id);
      case Ready(otps) => c.WorkDone(otps);
      case Remove => c.RemoveSeeds();
      case Check(id, otp) => ok := c.CheckOtp(id, otp);
    }
  }

  // ---- one seed, one password after the other ----

  /** The outcomes of a series of checks under one number. */
  ghost function Outcomes(seeds: seq<Seed>, id: nat, vs: seq<nat>): (oks: seq<bool>)
    ensures |oks| == |vs|
    decreases |vs|
  {
    if vs == [] then [] else [Knows(seeds, id, vs[0])] + Outcomes(UseOtp(seeds, id, vs[0]), id, vs[1..])
  }

  /** They are what the table of the newest seed of that number makes of them. */
  lemma {:induction false} OutcomesAccepted(seeds: seq<Seed>, id: nat, vs: seq<nat>)
    requires Find(seeds, id).Some?
    ensures Outcomes(seeds, id, vs) == Accepted(seeds[Find(seeds, id).value].bag, vs)
    decreases |vs|
  {
    if vs != [] {
      hide Find;
      FindSame(UseOtp(seeds, id, vs[0]), seeds, id);
      OutcomesAccepted(UseOtp(seeds, id, vs[0]), id, vs[1..]);
    }
  }
}
