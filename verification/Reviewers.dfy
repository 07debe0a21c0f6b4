/**
 Reviewer rotation by credits: every request in a pool gives each of its reviewers a share
 of one credit, and whoever is asked pays a whole one. Credits are reals here.
 */
module Reviewers {
  import Finite
  import opened Ir

  type Credits = map<string, real>

  datatype Pool = Pool(name: string, reviewers: seq<string>)

  /** What the outside decides: the author, whom GitHub refuses, and how many tries the request stays open for. */
  datatype Env = Env(author: string, refused: set<string>, tries: nat)

  function Lower(s: string): string {
    seq(|s|, i requires 0 <= i < |s| => if 'A' <= s[i] <= 'Z' then (s[i] as int + 32) as char else s[i])
  }

  function Held(stored: Credits, login: string): real {
    if login in stored then stored[login] else 0.0
  }

  /** Every reviewer's credit with its share added, at most one. */
  function Shared(stored: Credits, reviewers: seq<string>): (credits: Credits)
    ensures forall l :: l in credits <==> l in reviewers
  {
    map l | l in reviewers :: Capped(Held(stored, l) + 1.0 / (|reviewers| as real))
  }

  function Capped(x: real): real {
    if x <= 1.0 then x else 1.0
  }

  /** Whoever is asked pays one, down to minus one. */
  function Paid(credits: Credits, reviewer: string): Credits
    requires reviewer in credits
  {
    credits[reviewer := if credits[reviewer] - 1.0 >= -1.0 then credits[reviewer] - 1.0 else -1.0]
  }

  predicate IsCandidate(reviewers: seq<string>, author: string, login: string) {
    login in reviewers && Lower(login) != Lower(author)
  }

  /** `reviewer` has the most credit of the candidates GitHub takes. */
  ghost predicate Picks(reviewers: seq<string>, stored: Credits, env: Env, reviewer: string) {
    && IsCandidate(reviewers, env.author, reviewer) && reviewer !in env.refused
    && forall l :: IsCandidate(reviewers, env.author, l) && l !in env.refused ==>
         Shared(stored, reviewers)[l] <= Shared(stored, reviewers)[reviewer]
  }

  function Candidates(reviewers: seq<string>, author: string): (candidates: seq<string>)
    ensures forall l :: l in candidates <==> IsCandidate(reviewers, author, l)
  {
    if reviewers == [] then []
    else (if Lower(reviewers[0]) != Lower(author) then [reviewers[0]] else []) + Candidates(reviewers[1..], author)
  }

  method Highest(candidates: seq<string>, credits: Credits) returns (highest: real)
    requires candidates != [] && forall l :: l in candidates ==> l in credits
    ensures forall l :: l in candidates ==> credits[l] <= highest
    ensures exists l :: l in candidates && credits[l] == highest
  {
    highest := credits[candidates[0]];
    for i := 1 to |candidates|
      invariant forall j :: 0 <= j < i ==> credits[candidates[j]] <= highest
      invariant exists l :: l in candidates && credits[l] == highest
    {
      if credits[candidates[i]] > highest {
        highest := credits[candidates[i]];
      }
    }
  }

  /** `candidates.remove(login)`: the first occurrence goes. */
  function Without(candidates: seq<string>, login: string): (rest: seq<string>)
    requires login in candidates
    ensures |rest| == |candidates| - 1
    ensures forall l :: l in rest ==> l in candidates
    ensures forall l :: l in candidates && l != login ==> l in rest
  {
    if candidates[0] == login then candidates[1..] else [candidates[0]] + Without(candidates[1..], login)
  }

  /** How many of `candidates` GitHub refuses. */
  function RefusedIn(candidates: seq<string>, refused: set<string>): nat {
    if candidates == [] then 0
    else (if candidates[0] in refused then 1 else 0) + RefusedIn(candidates[1..], refused)
  }

  lemma {:induction false} WithoutRefused(candidates: seq<string>, login: string, refused: set<string>)
    requires login in candidates
    ensures RefusedIn(candidates, refused) ==
            RefusedIn(Without(candidates, login), refused) + if login in refused then 1 else 0
  {
    if candidates[0] != login {
      WithoutRefused(candidates[1..], login, refused);
      assert Without(candidates, login)[1..] == Without(candidates[1..], login);
    }
  }

  datatype Attempt = Asked(reviewer: string) | Exhausted | Closed

  /** Ask the pool's reviewers, most credit first and ties in any order, until one is taken. */
  method TryPool(reviewers: seq<string>, stored: Credits, env: Env) returns (attempt: Attempt, left: nat)
    ensures left <= env.tries
    ensures attempt.Asked? ==> Picks(reviewers, stored, env, attempt.reviewer)
    ensures attempt.Exhausted? ==> forall l :: IsCandidate(reviewers, env.author, l) ==> l in env.refused
    ensures attempt.Closed? ==> env.tries <= RefusedIn(Candidates(reviewers, env.author), env.refused)
    ensures attempt.Exhausted? ==> env.tries - left == RefusedIn(Candidates(reviewers, env.author), env.refused)
  {
    var credits := Shared(stored, reviewers);
    var candidates := Candidates(reviewers, env.author);
    left := env.tries;
    while |candidates| > 0
      invariant left <= env.tries
      invariant env.tries - left + RefusedIn(candidates, env.refused)
             == RefusedIn(Candidates(reviewers, env.author), env.refused)
      invariant forall l :: l in candidates ==> IsCandidate(reviewers, env.author, l)
      invariant forall l :: IsCandidate(reviewers, env.author, l) && l !in candidates ==> l in env.refused
      decreases |candidates|
    {
      var highest := Highest(candidates, credits);
      var reviewer :| reviewer in candidates && credits[reviewer] == highest;
      WithoutRefused(candidates, reviewer, env.refused);
      candidates := Without(candidates, reviewer);
      if left == 0 {
        return Closed, left;
      }
      left := left - 1;
      if reviewer in env.refused {
        continue;
      }
      return Asked(reviewer), left;
    }
    attempt := Exhausted;
  }

  type Ledger = map<string, Credits>

  function StoredFor(ledger: Ledger, pool: Pool): Credits {
    if pool.name in ledger then ledger[pool.name] else map[]
  }

  /** One request settled: the pool's credits are shared out and `reviewer` pays. */
  function Settled(ledger: Ledger, pool: Pool, reviewer: string): Ledger
    requires reviewer in pool.reviewers
  {
    ledger[pool.name := Paid(Shared(StoredFor(ledger, pool), pool.reviewers), reviewer)]
  }

  /** GitHub takes no candidate of any pool. */
  ghost predicate AllRefused(pools: set<Pool>, env: Env) {
    forall pool, l :: pool in pools && IsCandidate(pool.reviewers, env.author, l) ==> l in env.refused
  }

  /** How many requests the pools can have refused between them. */
  ghost function Refusals(pools: set<Pool>, env: Env): nat {
    if pools == {} then 0
    else
      var pool :| pool in pools;
      RefusedIn(Candidates(pool.reviewers, env.author), env.refused) + Refusals(pools - {pool}, env)
  }

  lemma {:induction false} RefusalsWithout(pools: set<Pool>, env: Env, pool: Pool)
    requires pool in pools
    ensures Refusals(pools, env) ==
            RefusedIn(Candidates(pool.reviewers, env.author), env.refused) + Refusals(pools - {pool}, env)
    decreases pools
  {
    hide RefusedIn, Candidates;
    var first :| first in pools && Refusals(pools, env) ==
      RefusedIn(Candidates(first.reviewers, env.author), env.refused) + Refusals(pools - {first}, env);
    if first != pool {
      RefusalsWithout(pools - {first}, env, pool);
      RefusalsWithout(pools - {pool}, env, first);
      assert pools - {first} - {pool} == pools - {pool} - {first};
    }
  }

  /** Try the matching pools in any order; the ledger changes only where someone is asked. */
  method AssignReviewer(pools: set<Pool>, ledger: Ledger, env: Env) returns (asked: Option<(Pool, string)>, after: Ledger)
    ensures asked.None? ==> after == ledger
    ensures asked.None? ==> AllRefused(pools, env) || env.tries <= Refusals(pools, env)
    ensures asked.Some? ==>
              var (pool, reviewer) := asked.value;
              && pool in pools && Picks(pool.reviewers, StoredFor(ledger, pool), env, reviewer)
              && after == Settled(ledger, pool, reviewer)
  {
    hide RefusedIn, Refusals, Shared;
    var matched: set<Pool>, tries: nat := pools, env.tries;
    while matched != {}
      invariant matched <= pools && tries <= env.tries
      invariant env.tries - tries + Refusals(matched, env) == Refusals(pools, env)
      invariant forall pool, l :: pool in pools - matched && IsCandidate(pool.reviewers, env.author, l) ==> l in env.refused
      decreases |matched|
    {
      var pool :| pool in matched;
      RefusalsWithout(matched, env, pool);
      var attempt, left := TryPool(pool.reviewers, StoredFor(ledger, pool), env.(tries := tries));
      match attempt
      case Asked(reviewer) =>
        return Some((pool, reviewer)), Settled(ledger, pool, reviewer);
      case Closed =>
        return None, ledger;
      case Exhausted =>
        tries := left;
        matched := matched - {pool};
    }
    asked, after := None, ledger;
  }

  // ----- credits stay bounded -----

  ghost predicate Bounded(credits: Credits) {
    forall l :: l in credits ==> -1.0 <= credits[l] <= 1.0
  }

  ghost predicate AllBounded(ledger: Ledger) {
    forall p :: p in ledger ==> Bounded(ledger[p])
  }

  lemma SettledBounded(ledger: Ledger, pool: Pool, reviewer: string)
    requires AllBounded(ledger) && reviewer in pool.reviewers
    ensures AllBounded(Settled(ledger, pool, reviewer))
  {
    assert 1.0 / (|pool.reviewers| as real) > 0.0;
  }

  /** One request, settled or not. */
  datatype Request = Nobody | Somebody(pool: Pool, reviewer: string)

  function Ledgers(requests: seq<Request>): Ledger
    requires forall i :: 0 <= i < |requests| && requests[i].Somebody? ==> requests[i].reviewer in requests[i].pool.reviewers
  {
    if requests == [] then map[]
    else
      var before, last := Ledgers(requests[..|requests| - 1]), requests[|requests| - 1];
      if last.Somebody? then Settled(before, last.pool, last.reviewer) else before
  }

  /** Over every run from an empty ledger, no credit leaves [-1, 1]. */
  lemma {:induction false} RunBounded(requests: seq<Request>)
    requires forall i :: 0 <= i < |requests| && requests[i].Somebody? ==> requests[i].reviewer in requests[i].pool.reviewers
    ensures AllBounded(Ledgers(requests))
  {
    if requests != [] {
      RunBounded(requests[..|requests| - 1]);
      var last := requests[|requests| - 1];
      if last.Somebody? { SettledBounded(Ledgers(requests[..|requests| - 1]), last.pool, last.reviewer); }
    }
  }

  // ----- every reviewer gets a turn -----

  /** Nobody is excluded or refused, so whoever is asked has the most credit of all. */
  ghost predicate Tops(reviewers: seq<string>, stored: Credits, reviewer: string) {
    reviewer in reviewers && forall l :: l in reviewers ==> Shared(stored, reviewers)[l] <= Shared(stored, reviewers)[reviewer]
  }

  lemma PicksTops(reviewers: seq<string>, stored: Credits, env: Env, reviewer: string)
    requires forall l :: l in reviewers ==> Lower(l) != Lower(env.author) && l !in env.refused
    ensures Picks(reviewers, stored, env, reviewer) <==> Tops(reviewers, stored, reviewer)
  {
    hide Shared, Lower;
  }

  /** The credits of one pool after a run of requests in it, from none. */
  function Rota(reviewers: seq<string>, picks: seq<string>): Credits
    requires forall p :: p in picks ==> p in reviewers
  {
    if picks == [] then map[]
    else Paid(Shared(Rota(reviewers, picks[..|picks| - 1]), reviewers), picks[|picks| - 1])
  }

  ghost predicate Legal(reviewers: seq<string>, picks: seq<string>) {
    && (forall p :: p in picks ==> p in reviewers)
    && forall i :: 0 <= i < |picks| ==> Tops(reviewers, Rota(reviewers, picks[..i]), picks[i])
  }

  ghost predicate Distinct(s: seq<string>) {
    forall i, j :: 0 <= i < j < |s| ==> s[i] != s[j]
  }

  /** Those asked since everyone last had been. */
  ghost function Done(reviewers: seq<string>, picks: seq<string>): set<string> {
    if picks == [] then {}
    else
      var now := Done(reviewers, picks[..|picks| - 1]) + {picks[|picks| - 1]};
      if |now| == |reviewers| then {} else now
  }

  function Times(picks: seq<string>, login: string): nat {
    if picks == [] then 0 else Times(picks[..|picks| - 1], login) + if picks[|picks| - 1] == login then 1 else 0
  }

  /** What each reviewer holds once those in `done` have been asked this round. */
  function Due(n: nat, done: nat, asked: bool): real
    requires n > 0
  {
    (done as real) / (n as real) - if asked then 1.0 else 0.0
  }

  ghost predicate Even(reviewers: seq<string>, credits: Credits, done: set<string>) {
    && (forall l :: l in done ==> l in reviewers) && |done| < |reviewers|
    && forall l :: l in reviewers ==> Held(credits, l) == Due(|reviewers|, |done|, l in done)
  }

  lemma DueStep(n: nat, done: nat)
    requires done < n
    ensures forall asked :: Due(n, done, asked) + 1.0 / (n as real) == Due(n, done + 1, asked)
    ensures 0.0 < Due(n, done + 1, false) <= 1.0
    ensures Due(n, n, true) == 0.0 == Due(n, 0, false)
  {
    var d, m := done as real, n as real;
    assert d / m + 1.0 / m == (d + 1.0) / m;
    assert (d + 1.0) / m <= m / m by { DividesUp(d + 1.0, m, m); }
  }

  lemma DividesUp(a: real, b: real, m: real)
    requires a <= b && m > 0.0
    ensures a / m <= b / m
  {
  }

  lemma SomeoneLeft(reviewers: seq<string>, done: set<string>) returns (l: string)
    requires Distinct(reviewers) && |done| < |reviewers| && forall d :: d in done ==> d in reviewers
    ensures l in reviewers && l !in done
  {
    DistinctCount(reviewers);
    var all := set r | r in reviewers;
    if all <= done { Finite.Subset(all, done); }
    l :| l in all && l !in done;
  }

  lemma {:induction false} DistinctCount(s: seq<string>)
    requires Distinct(s)
    ensures |set x | x in s| == |s|
  {
    if s != [] {
      DistinctCount(s[1..]);
      assert (set x | x in s) == (set x | x in s[1..]) + {s[0]};
    }
  }

  lemma SharedEven(reviewers: seq<string>, credits: Credits, done: set<string>, l: string)
    requires Even(reviewers, credits, done) && l in reviewers
    ensures Shared(credits, reviewers)[l] == Due(|reviewers|, |done| + 1, l in done)
  {
    hide Due;
    DueStep(|reviewers|, |done|);
    assert Due(|reviewers|, |done|, l in done) + 1.0 / (|reviewers| as real) == Due(|reviewers|, |done| + 1, l in done);
    DueAsked(|reviewers|, |done| + 1);
  }

  lemma DueAsked(n: nat, done: nat)
    requires n > 0
    ensures Due(n, done, true) == Due(n, done, false) - 1.0
    ensures Due(n, done, false) >= 0.0
  {
    DividesUp(0.0, done as real, n as real);
  }

  /** The next asked is one not yet asked this round. */
  lemma NextIsNew(reviewers: seq<string>, credits: Credits, done: set<string>, r: string)
    requires Distinct(reviewers) && Even(reviewers, credits, done) && Tops(reviewers, credits, r)
    ensures r !in done
  {
    hide Due, Shared;
    var l := SomeoneLeft(reviewers, done);
    SharedEven(reviewers, credits, done, l);
    SharedEven(reviewers, credits, done, r);
    DueAsked(|reviewers|, |done| + 1);
  }

  lemma PaidEven(reviewers: seq<string>, credits: Credits, done: set<string>, r: string, l: string)
    requires Even(reviewers, credits, done) && r in reviewers && r !in done && l in reviewers
    ensures Held(Paid(Shared(credits, reviewers), r), l) == Due(|reviewers|, |done| + 1, l in done + {r})
  {
    hide Due, Shared;
    SharedEven(reviewers, credits, done, l);
    SharedEven(reviewers, credits, done, r);
    DueAsked(|reviewers|, |done| + 1);
  }

  lemma RoundStep(reviewers: seq<string>, credits: Credits, done: set<string>, r: string)
    requires Distinct(reviewers) && Even(reviewers, credits, done) && Tops(reviewers, credits, r)
    ensures r !in done
    ensures Even(reviewers, Paid(Shared(credits, reviewers), r), if |done| + 1 == |reviewers| then {} else done + {r})
  {
    hide Due, Shared, Paid;
    NextIsNew(reviewers, credits, done, r);
    var paid, now := Paid(Shared(credits, reviewers), r), done + {r};
    forall l | l in reviewers
      ensures Held(paid, l) == Due(|reviewers|, |now|, l in now)
    {
      PaidEven(reviewers, credits, done, r, l);
    }
    if |now| == |reviewers| {
      DueStep(|reviewers|, |done|);
      forall l | l in reviewers
        ensures l in now
      {
        if l !in now { NowIsAll(reviewers, now, l); }
      }
    }
  }

  lemma NowIsAll(reviewers: seq<string>, now: set<string>, l: string)
    requires Distinct(reviewers) && |now| == |reviewers| && (forall d :: d in now ==> d in reviewers) && l in reviewers
    ensures l in now
  {
    DistinctCount(reviewers);
    var all := set r | r in reviewers;
    if l !in now { Finite.ProperSubset(now, all); }
  }

  /** After any number of requests, everyone has been asked as often as anyone, or once more. */
  lemma {:induction false} TurnsAreEven(reviewers: seq<string>, picks: seq<string>)
    requires reviewers != [] && Distinct(reviewers) && Legal(reviewers, picks)
    ensures var done := Done(reviewers, picks);
            && Even(reviewers, Rota(reviewers, picks), done)
            && |picks| % |reviewers| == |done|
            && forall l :: l in reviewers ==> Times(picks, l) == |picks| / |reviewers| + if l in done then 1 else 0
  {
    hide Even, Tops, Shared, Paid;
    if picks == [] {
      StartEven(reviewers);
    } else {
      var before, r := picks[..|picks| - 1], picks[|picks| - 1];
      LegalBefore(reviewers, picks);
      TurnsAreEven(reviewers, before);
      var done := Done(reviewers, before);
      RoundStep(reviewers, Rota(reviewers, before), done, r);
      NextCount(|before|, |reviewers|);
      EvenIs(reviewers, Rota(reviewers, before), done);
      if |done| + 1 == |reviewers| {
        forall l | l in reviewers
          ensures l in done + {r}
        {
          NowIsAll(reviewers, done + {r}, l);
        }
      }
    }
  }

  lemma EvenIs(reviewers: seq<string>, credits: Credits, done: set<string>)
    requires Even(reviewers, credits, done)
    ensures (forall l :: l in done ==> l in reviewers) && |done| < |reviewers|
  {
  }

  lemma StartEven(reviewers: seq<string>)
    requires reviewers != []
    ensures Even(reviewers, map[], {})
  {
  }

  lemma LegalBefore(reviewers: seq<string>, picks: seq<string>)
    requires picks != [] && Legal(reviewers, picks)
    ensures Legal(reviewers, picks[..|picks| - 1]) && picks[|picks| - 1] in reviewers
    ensures Tops(reviewers, Rota(reviewers, picks[..|picks| - 1]), picks[|picks| - 1])
  {
    hide Tops, Rota;
    var before := picks[..|picks| - 1];
    assert forall p :: p in before ==> p in picks;
    forall i | 0 <= i < |before|
      ensures Tops(reviewers, Rota(reviewers, before[..i]), before[i])
    {
      assert before[..i] == picks[..i];
    }
  }

  lemma NextCount(t: nat, n: nat)
    requires n > 0
    ensures (t + 1) % n == (if t % n + 1 == n then 0 else t % n + 1)
    ensures (t + 1) / n == t / n + (if t % n + 1 == n then 1 else 0)
  {
    var q, m := t / n, t % n;
    assert t == q * n + m;
    if m + 1 == n {
      assert t + 1 == (q + 1) * n;
      Quotient(q + 1, 0, n, t + 1);
    } else {
      Quotient(q, m + 1, n, t + 1);
    }
  }

  lemma SmallMultiple(k: int, n: int)
    requires n > 0 && -n < k * n < n
    ensures k == 0
  {
  }

  lemma Quotient(q: nat, m: nat, n: nat, t: nat)
    requires m < n && t == q * n + m
    ensures t / n == q && t % n == m
  {
    var a, r := t / n, t % n;
    assert a * n + r == q * n + m;
    assert (a - q) * n == a * n - q * n;
    SmallMultiple(a - q, n);
  }

  /** One round: as many requests as reviewers ask each once, and leave every credit at zero. */
  lemma OneRound(reviewers: seq<string>, picks: seq<string>)
    requires reviewers != [] && Distinct(reviewers) && Legal(reviewers, picks) && |picks| == |reviewers|
    ensures forall l :: l in reviewers ==> Times(picks, l) == 1 && Held(Rota(reviewers, picks), l) == 0.0
  {
    hide Rota, Done, Times, Legal, Due;
    TurnsAreEven(reviewers, picks);
    Quotient(1, 0, |reviewers|, |picks|);
    assert Done(reviewers, picks) == {};
    DueStep(|reviewers|, 0);
  }

  // ----- who is excluded -----

  /** Two letters are one but for their case. */
  predicate SameLetter(a: char, b: char) {
    || a == b
    || ('A' <= a <= 'Z' && 'a' <= b <= 'z' && b as int - a as int == 32)
    || ('a' <= a <= 'z' && 'A' <= b <= 'Z' && a as int - b as int == 32)
  }

  /** Logins are compared letter by letter without regard to case. */
  lemma LowerMeans(s: string, t: string)
    ensures Lower(s) == Lower(t) <==> |s| == |t| && forall i :: 0 <= i < |s| ==> SameLetter(s[i], t[i])
  {
    if Lower(s) == Lower(t) {
      assert |Lower(s)| == |s| && |Lower(t)| == |t|;
      forall i | 0 <= i < |s|
        ensures SameLetter(s[i], t[i])
      {
        assert Lower(s)[i] == Lower(t)[i];
      }
    }
    if |s| == |t| && forall i :: 0 <= i < |s| ==> SameLetter(s[i], t[i]) {
      assert forall i :: 0 <= i < |s| ==> Lower(s)[i] == Lower(t)[i];
    }
  }

  /** The author is nobody's candidate, however the login is written, and everyone else of the pool is one. */
  lemma CandidateMeans(reviewers: seq<string>, author: string, login: string)
    ensures login in Candidates(reviewers, author) <==>
            login in reviewers && !(|login| == |author| && forall i :: 0 <= i < |login| ==> SameLetter(login[i], author[i]))
  {
    LowerMeans(login, author);
  }

  // ----- pools do not share credits -----

  /** Whoever was asked in `pool`, in order. */
  function PicksIn(requests: seq<Request>, pool: Pool): seq<string> {
    if requests == [] then []
    else
      var before, last := PicksIn(requests[..|requests| - 1], pool), requests[|requests| - 1];
      if last.Somebody? && last.pool == pool then before + [last.reviewer] else before
  }

  /** The ledger holds for each pool the credits its own requests leave, whatever happened in the others. */
  lemma {:induction false} LedgersAreRotas(requests: seq<Request>, pool: Pool)
    requires forall i :: 0 <= i < |requests| && requests[i].Somebody? ==>
               && requests[i].reviewer in requests[i].pool.reviewers
               && (requests[i].pool.name == pool.name ==> requests[i].pool == pool)
    ensures forall p :: p in PicksIn(requests, pool) ==> p in pool.reviewers
    ensures StoredFor(Ledgers(requests), pool) == Rota(pool.reviewers, PicksIn(requests, pool))
  {
    hide Shared, Paid, StoredFor, Settled;
    if requests == [] {
      NothingStored(pool);
    } else {
      var before, last := requests[..|requests| - 1], requests[|requests| - 1];
      LedgersAreRotas(before, pool);
      if last.Somebody? {
        SettledFor(Ledgers(before), last.pool, last.reviewer, pool);
        if last.pool == pool { RotaGrows(pool.reviewers, PicksIn(before, pool), last.reviewer); }
      }
    }
  }

  lemma NothingStored(pool: Pool)
    ensures StoredFor(map[], pool) == map[]
  {
  }

  lemma SettledFor(ledger: Ledger, asked: Pool, reviewer: string, pool: Pool)
    requires reviewer in asked.reviewers
    ensures StoredFor(Settled(ledger, asked, reviewer), pool) ==
            if asked.name == pool.name then Paid(Shared(StoredFor(ledger, asked), asked.reviewers), reviewer)
            else StoredFor(ledger, pool)
  {
    hide Shared, Paid;
  }

  lemma RotaGrows(reviewers: seq<string>, picks: seq<string>, pick: string)
    requires (forall p :: p in picks ==> p in reviewers) && pick in reviewers
    ensures Rota(reviewers, picks + [pick]) == Paid(Shared(Rota(reviewers, picks), reviewers), pick)
  {
    assert (picks + [pick])[..|picks|] == picks;
  }
}
