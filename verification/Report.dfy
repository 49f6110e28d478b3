/** The report of report.go: an append-only list of results, and the verdict
    and summary computed from it. */
module Reports {
  datatype Status = Pass | Fail | Warn | Info | Skip | Blocked

  /** The mean and the range of one measurement. */
  datatype Spread = Spread(mean: real, lo: real, hi: real)

  /** One result. `detail` and `quotes` keep the facts and the measurements a
      message is made of, not its wording; `remedy` is empty where the source
      gives none. */
  datatype Finding = Finding(id: string, status: Status, detail: seq<string>, quotes: seq<Spread>, remedy: string)

  function Noted(id: string, status: Status, detail: seq<string>): Finding {
    Finding(id, status, detail, [], "")
  }

  function Plain(id: string, status: Status): Finding {
    Noted(id, status, [])
  }

  function Quoting(id: string, status: Status, quotes: seq<Spread>): Finding {
    Finding(id, status, [], quotes, "")
  }

  // ----- what a verdict means -----

  predicate Has(rs: seq<Finding>, st: Status) {
    exists k | 0 <= k < |rs| :: rs[k].status == st
  }

  function Verdict(rs: seq<Finding>): Status {
    if Has(rs, Fail) then Fail else if Has(rs, Blocked) then Blocked else Pass
  }

  function Count(rs: seq<Finding>, st: Status): (n: nat)
    ensures n > 0 <==> Has(rs, st)
  {
    if rs == [] then 0
    else
      assert rs == rs[..|rs| - 1] + [rs[|rs| - 1]];
      Count(rs[..|rs| - 1], st) + (if rs[|rs| - 1].status == st then 1 else 0)
  }

  /** How bad a verdict is: passed, then incomplete, then failed. */
  function Severity(verdict: Status): nat {
    match verdict
    case Fail => 2
    case Blocked => 1
    case _ => 0
  }

  function Join(a: Status, b: Status): Status {
    if Severity(a) >= Severity(b) then a else b
  }

  /** The process's exit code for a verdict. */
  function ExitCode(verdict: Status): nat {
    match verdict
    case Fail => 1
    case Blocked => 3
    case _ => 0
  }

  /** 1 if anything failed; 3 if nothing did but something could not be checked;
      0 otherwise. */
  predicate CodeFits(code: nat, rs: seq<Finding>) {
    code == if exists f | f in rs :: f.status == Fail then 1
            else if exists f | f in rs :: f.status == Blocked then 3
            else 0
  }

  lemma {:induction false} HasMember(rs: seq<Finding>, st: Status)
    ensures Has(rs, st) <==> exists f :: f in rs && f.status == st
  {
  }

  lemma {:induction false} ExitCodeFits(rs: seq<Finding>)
    ensures CodeFits(ExitCode(Verdict(rs)), rs)
  {
    HasMember(rs, Fail);
    HasMember(rs, Blocked);
    hide Has;
  }

  lemma {:induction false} HasAppend(a: seq<Finding>, b: seq<Finding>, st: Status)
    ensures Has(a + b, st) <==> Has(a, st) || Has(b, st)
  {
    if k :| 0 <= k < |a| && a[k].status == st {
      assert (a + b)[k] == a[k];
    }
    if k :| 0 <= k < |b| && b[k].status == st {
      assert (a + b)[|a| + k] == b[k];
    }
  }

  /** A verdict from whether anything failed and whether anything was blocked. */
  function Worst(fails: bool, blocks: bool): Status {
    if fails then Fail else if blocks then Blocked else Pass
  }

  lemma {:induction false} VerdictIsWorst(rs: seq<Finding>)
    ensures Verdict(rs) == Worst(Has(rs, Fail), Has(rs, Blocked))
  {
  }

  /** The verdict of two runs put together is the more severe of the two, so
      adding results never softens it. */
  lemma {:induction false} VerdictJoins(a: seq<Finding>, b: seq<Finding>)
    ensures Verdict(a + b) == Join(Verdict(a), Verdict(b))
    ensures Severity(Verdict(a + b)) >= Severity(Verdict(a))
  {
    HasAppend(a, b, Fail);
    HasAppend(a, b, Blocked);
  }

  /** The members of a bag of results that have a given status. */
  ghost function Select(m: multiset<Finding>, st: Status): (r: multiset<Finding>)
    ensures forall f :: r[f] == if f.status == st then m[f] else 0
    decreases |m|
  {
    if m == multiset{} then multiset{}
    else
      var f :| f in m;
      var rest := Select(m - multiset{f}, st);
      if f.status == st then rest + multiset{f} else rest
  }

  lemma {:induction false} SelectAdd(m: multiset<Finding>, f: Finding, st: Status)
    ensures Select(m + multiset{f}, st) == Select(m, st) + (if f.status == st then multiset{f} else multiset{})
  {
  }

  lemma {:induction false} CountIsMultiplicity(rs: seq<Finding>, st: Status)
    ensures Count(rs, st) == |Select(multiset(rs), st)|
  {
    if rs == [] {
      assert Select(multiset(rs), st) == multiset{};
    } else {
      var front, last := rs[..|rs| - 1], rs[|rs| - 1];
      assert rs == front + [last];
      CountIsMultiplicity(front, st);
      assert multiset(rs) == multiset(front) + multiset{last};
      SelectAdd(multiset(front), last, st);
    }
  }

  /** Neither the counts nor the verdict depend on the order of the results. */
  lemma {:induction false} OrderIrrelevant(a: seq<Finding>, b: seq<Finding>)
    requires multiset(a) == multiset(b)
    ensures forall st :: Count(a, st) == Count(b, st)
    ensures Verdict(a) == Verdict(b)
  {
    forall st
      ensures Count(a, st) == Count(b, st)
    {
      CountIsMultiplicity(a, st);
      CountIsMultiplicity(b, st);
    }
    assert Count(a, Fail) == Count(b, Fail) && Count(a, Blocked) == Count(b, Blocked);
  }

  /** Only failures and blocked checks matter: every other result can be
      dropped without changing the verdict. */
  lemma {:induction false} OthersIgnored(rs: seq<Finding>)
    ensures Verdict(Decisive(rs)) == Verdict(rs)
  {
    if rs != [] {
      OthersIgnored(rs[1..]);
      assert rs == [rs[0]] + rs[1..];
      assert Has([rs[0]], rs[0].status);
      VerdictJoins([rs[0]], rs[1..]);
      VerdictJoins([rs[0]], Decisive(rs[1..]));
      if rs[0].status != Fail && rs[0].status != Blocked {
        assert Decisive(rs) == Decisive(rs[1..]);
      }
    }
  }

  function Decisive(rs: seq<Finding>): seq<Finding> {
    if rs == [] then []
    else (if rs[0].status == Fail || rs[0].status == Blocked then [rs[0]] else []) + Decisive(rs[1..])
  }

  lemma {:induction false} CountsAddUp(rs: seq<Finding>)
    ensures Count(rs, Pass) + Count(rs, Fail) + Count(rs, Warn) + Count(rs, Info) + Count(rs, Skip) + Count(rs, Blocked)
         == |rs|
  {
    if rs != [] {
      CountsAddUp(rs[..|rs| - 1]);
    }
  }

  lemma {:induction false} OneMore(rs: seq<Finding>, i: nat)
    requires i < |rs|
    ensures forall st :: Has(rs[..i + 1], st) <==> Has(rs[..i], st) || rs[i].status == st
    ensures forall st :: Count(rs[..i + 1], st) == Count(rs[..i], st) + (if rs[i].status == st then 1 else 0)
  {
    assert rs[..i + 1][..i] == rs[..i];
    assert rs[..i + 1] == rs[..i] + [rs[i]];
    forall st
      ensures Has(rs[..i + 1], st) <==> Has(rs[..i], st) || rs[i].status == st
    {
      HasAppend(rs[..i], [rs[i]], st);
      assert Has([rs[i]], rs[i].status);
    }
  }

  /** The summary holds exactly the occurring statuses, with their counts. */
  predicate Tallied(summary: map<Status, nat>, rs: seq<Finding>) {
    && (forall st :: st in summary <==> Has(rs, st))
    && (forall st :: st in summary ==> summary[st] == Count(rs, st))
  }

  lemma {:induction false} TallyOneMore(summary: map<Status, nat>, rs: seq<Finding>, i: nat)
    requires i < |rs| && Tallied(summary, rs[..i])
    ensures var st := rs[i].status;
      Tallied(summary[st := (if st in summary then summary[st] else 0) + 1], rs[..i + 1])
  {
    var st := rs[i].status;
    assert st !in summary ==> Count(rs[..i], st) == 0;
    OneMore(rs, i);
    hide Has, Count;
  }

  /** What the loop over the results has found after `rs`: a failure, a blocked
      check, and the counts. */
  predicate Scanned(verdict: Status, blocked: bool, summary: map<Status, nat>, rs: seq<Finding>) {
    && verdict == (if Has(rs, Fail) then Fail else Pass)
    && (blocked <==> Has(rs, Blocked))
    && Tallied(summary, rs)
  }

  lemma {:induction false} NothingScanned()
    ensures Scanned(Pass, false, map[], [])
  {
  }

  lemma {:induction false} ScanOneMore(
    verdict: Status, blocked: bool, summary: map<Status, nat>, rs: seq<Finding>, i: nat)
    requires i < |rs| && Scanned(verdict, blocked, summary, rs[..i])
    ensures var st := rs[i].status;
      Scanned(if st == Fail then Fail else verdict, blocked || st == Blocked,
        summary[st := (if st in summary then summary[st] else 0) + 1], rs[..i + 1])
  {
    OneMore(rs, i);
    TallyOneMore(summary, rs, i);
    hide Has, Count, Tallied;
  }

  lemma {:induction false} ScanDone(verdict: Status, blocked: bool, summary: map<Status, nat>, rs: seq<Finding>)
    requires Scanned(verdict, blocked, summary, rs)
    ensures (if blocked && verdict != Fail then Blocked else verdict) == Verdict(rs)
    ensures Tallied(summary, rs)
  {
    hide Has, Tallied;
  }

  // ----- the report -----

  class Report {
    var results: seq<Finding>
    var summary: map<Status, nat>
    var verdict: Status

    constructor ()
      ensures results == []
    {
      results, summary, verdict := [], map[], Pass;
    }

    method Add(res: Finding)
      modifies `results
      ensures results == old(results) + [res]
    {
      results := results + [res];
    }

    /** Computes verdict and summary: the verdict is Fail, Blocked or Pass by
        precedence, and the summary holds each occurring status with its
        multiplicity. */
    method Finish()
      modifies `summary, `verdict
      ensures verdict == Verdict(results)
      ensures Tallied(summary, results)
    {
      hide Scanned, Verdict, Tallied;
      NothingScanned();
      summary := map[];
      verdict := Pass;
      var blocked := false;
      for i := 0 to |results|
        invariant Scanned(verdict, blocked, summary, results[..i])
      {
        var st := results[i].status;
        ScanOneMore(verdict, blocked, summary, results, i);
        summary := summary[st := (if st in summary then summary[st] else 0) + 1];
        match st {
          case Fail => verdict := Fail;
          case Blocked => blocked := true;
          case _ =>
        }
      }
      assert results[..|results|] == results;
      ScanDone(verdict, blocked, summary, results);
      if blocked && verdict != Fail {
        verdict := Blocked;
      }
    }
  }
}
