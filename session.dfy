/**
 * `main`: each pass fetches the catalog, lets the user pick a data source, reports its
 * fields when the pick has calculated fields, and asks whether to go on; only the answer
 * `y` (after `strip()` and `lower()`) leads to another pass.
 */
module Session {
  import opened Wrappers
  import opened Text
  import opened Catalog
  import opened Metadata

  /**
   * What one pass of the loop receives from outside: the two metadata query results, the
   * ID the user typed (already through `int()`; `None` when that raised ValueError), the
   * read-metadata service as a function of the requested luid, and the answer to the
   * continuation prompt.
   */
  datatype Round = Round(
    fields: seq<RawCalculatedField>,
    sources: seq<PublishedDatasource>,
    choice: Option<int>,
    readMetadata: string -> seq<VizField>,
    answer: string)

  /** The table printed for a pass: the luid that was requested, the title's data source name, the rows. */
  datatype Report = Report(luid: string, title: Option<string>, rows: seq<ReportRow>)

  /** The selection `get_luid` returns in a pass. */
  function Selection(r: Round): Option<seq<CatalogRow>> {
    Select(BuildCatalog(r.fields, r.sources), r.sources, r.choice)
  }

  /** The report of one pass (lines 170-178). */
  function PassReport(r: Round): Option<Report>
  {
    var sel := Selection(r);
    if sel.Some? && sel.value != [] then
      var luid := RequestLuid(sel.value);
      Some(Report(luid, sel.value[0].datasourceName, MetadataReport(r.readMetadata(luid), sel.value)))
    else
      None
  }

  /**
   * A pass reports only when its selection is neither `None` nor empty; the report then names
   * the luid and the name of the data source with the chosen ID, and holds the metadata of that
   * luid joined with the chosen rows.
   */
  lemma PassReportSpec(r: Round)
    ensures PassReport(r).Some? <==> Selection(r).Some? && Selection(r).value != []
    ensures PassReport(r).Some? ==>
      && r.choice.Some? && 1 <= r.choice.value <= |r.sources|
      && PassReport(r).value.luid == r.sources[r.choice.value - 1].luid
      && PassReport(r).value.title == Some(r.sources[r.choice.value - 1].name)
      && PassReport(r).value.rows == MetadataReport(r.readMetadata(PassReport(r).value.luid), Selection(r).value)
  {
    var sel := Selection(r);
    if sel.Some? && sel.value != [] {
      assert sel.value[0] in sel.value;
    }
  }

  /**
   * With distinct luids, a pass reports exactly when the chosen data source owns some
   * calculated field: a data source without calculated fields gets no report.
   */
  lemma PassReportIff(r: Round)
    requires DistinctLuids(r.sources)
    ensures PassReport(r).Some? <==>
      r.choice.Some? && 1 <= r.choice.value <= |r.sources|
      && OwnedBy(NormalizeAll(r.fields), r.sources[r.choice.value - 1]) != []
  {
    if r.choice.Some? && 1 <= r.choice.value <= |r.sources| {
      SelectChosenFields(r.fields, r.sources, r.choice.value);
    }
  }

  /** What a pass shows: the report it printed, if any, and whether the answer asked for another pass. */
  datatype PassOutcome = PassOutcome(report: Option<Report>, again: bool)

  function PassOf(r: Round): PassOutcome {
    PassOutcome(PassReport(r), SaysYes(r.answer))
  }

  /** The pass outcomes of the rounds supplied, one per round. */
  function PassesOf(rounds: seq<Round>): (ps: seq<PassOutcome>)
    ensures |ps| == |rounds|
    ensures forall i :: 0 <= i < |rounds| ==> ps[i] == PassOf(rounds[i])
  {
    if rounds == [] then [] else [PassOf(rounds[0])] + PassesOf(rounds[1..])
  }

  /** The outcome of a session: the reports printed, the passes made, and whether the user declined. */
  datatype Outcome = Outcome(reports: seq<Report>, passes: nat, declined: bool)

  function ReportSeq(rep: Option<Report>): seq<Report> {
    match rep case None => [] case Some(x) => [x]
  }

  /** The session: it stops after the first pass not answered `y`, or when the passes supplied run out. */
  function Run(ps: seq<PassOutcome>): Outcome
  {
    if ps == [] then Outcome([], 0, false)
    else
      var here := ReportSeq(ps[0].report);
      if !ps[0].again then Outcome(here, 1, true)
      else
        var rest := Run(ps[1..]);
        Outcome(here + rest.reports, 1 + rest.passes, rest.declined)
  }

  /** The session from pass `i` on, once the passes before it printed `done`. */
  predicate RunFrom(ps: seq<PassOutcome>, i: nat, done: seq<Report>)
    requires i <= |ps|
  {
    var rest := Run(ps[i..]);
    Run(ps) == Outcome(done + rest.reports, i + rest.passes, rest.declined)
  }

  /** One pass of the loop: its report is printed, then the answer decides between stopping and going on. */
  lemma RunStep(ps: seq<PassOutcome>, i: nat, done: seq<Report>)
    requires i < |ps| && RunFrom(ps, i, done)
    ensures ps[i].again ==> RunFrom(ps, i + 1, done + ReportSeq(ps[i].report))
    ensures !ps[i].again ==> Run(ps) == Outcome(done + ReportSeq(ps[i].report), i + 1, true)
  {
    var here := ReportSeq(ps[i].report);
    var rest := Run(ps[i + 1..]);
    assert Run(ps[i..]) == if ps[i].again then Outcome(here + rest.reports, 1 + rest.passes, rest.declined)
                           else Outcome(here, 1, true) by {
      assert ps[i..][0] == ps[i];
      assert ps[i..][1..] == ps[i + 1..];
    }
    AppendAssoc(done, here, rest.reports);
  }

  /** Concatenation of reports is associative; kept apart so that `RunStep` does not reason about it among the unfoldings of `Run`. */
  lemma AppendAssoc<T>(a: seq<T>, b: seq<T>, c: seq<T>)
    ensures a + (b + c) == (a + b) + c
  {
  }

  /** The `while True` loop of `main`, leaving by `break` on any answer other than `y`. */
  method RunSession(rounds: seq<Round>) returns (reports: seq<Report>, passes: nat, declined: bool)
    ensures Outcome(reports, passes, declined) == Run(PassesOf(rounds))
  {
    ghost var ps := PassesOf(rounds);
    reports, passes, declined := [], 0, false;
    assert ps[passes..] == ps;
    while passes < |rounds|
      invariant passes <= |rounds|
      invariant RunFrom(ps, passes, reports)
    {
      var pass := PassOf(rounds[passes]);
      RunStep(ps, passes, reports);
      reports := reports + ReportSeq(pass.report);
      passes := passes + 1;
      if !pass.again {
        declined := true;
        break;
      }
    }
    assert passes == |rounds| ==> ps[passes..] == [];
  }

  /** The user has declined iff some pass was not answered `y`. */
  lemma {:induction false} RunDeclinedIff(ps: seq<PassOutcome>)
    ensures Run(ps).declined <==> exists i :: 0 <= i < |ps| && !ps[i].again
  {
    if ps != [] {
      RunDeclinedIff(ps[1..]);
      if exists i :: 0 <= i < |ps| && !ps[i].again {
        var i :| 0 <= i < |ps| && !ps[i].again;
        if i > 0 { assert ps[1..][i - 1] == ps[i]; }
      }
      if exists i :: 0 <= i < |ps[1..]| && !ps[1..][i].again {
        var i :| 0 <= i < |ps[1..]| && !ps[1..][i].again;
        assert ps[i + 1] == ps[1..][i];
      }
    }
  }

  /**
   * The loop goes on exactly while the answers are `y`: every pass but the last was answered
   * `y`, and the last was not, unless the passes supplied ran out first.
   */
  lemma {:induction false} RunPasses(ps: seq<PassOutcome>)
    ensures Run(ps).passes <= |ps|
    ensures forall i :: 0 <= i < Run(ps).passes - 1 ==> ps[i].again
    ensures Run(ps).declined ==> Run(ps).passes >= 1 && !ps[Run(ps).passes - 1].again
    ensures !Run(ps).declined ==> Run(ps).passes == |ps| && forall i :: 0 <= i < |ps| ==> ps[i].again
  {
    if ps != [] {
      RunPasses(ps[1..]);
      var rest := Run(ps[1..]);
      if ps[0].again {
        forall i | 0 <= i < Run(ps).passes - 1 ensures ps[i].again {
          if i > 0 { assert ps[i] == ps[1..][i - 1]; }
        }
        if rest.declined {
          assert ps[Run(ps).passes - 1] == ps[1..][rest.passes - 1];
        } else {
          forall i | 0 <= i < |ps| ensures ps[i].again {
            if i > 0 { assert ps[i] == ps[1..][i - 1]; }
          }
        }
      }
    }
  }

  /** The reports of the given passes, in order. */
  function ReportsOf(ps: seq<PassOutcome>): seq<Report>
  {
    if ps == [] then [] else ReportSeq(ps[0].report) + ReportsOf(ps[1..])
  }

  /** Every pass made prints its report when it has one, and no other report is printed. */
  lemma {:induction false} RunReports(ps: seq<PassOutcome>)
    ensures Run(ps).passes <= |ps|
    ensures Run(ps).reports == ReportsOf(ps[..Run(ps).passes])
  {
    if ps != [] {
      RunReports(ps[1..]);
      var k := Run(ps).passes;
      var pre := ps[..k];
      assert pre[0] == ps[0];
      if ps[0].again {
        assert pre[1..] == ps[1..][..Run(ps[1..]).passes];
      } else {
        assert pre[1..] == [];
      }
    }
  }

  /** Pass i of the rounds asks for another pass iff its answer strips and lower-cases to `y`. */
  lemma PassesAgain(rounds: seq<Round>)
    ensures |PassesOf(rounds)| == |rounds|
    ensures forall i :: 0 <= i < |rounds| ==> (PassesOf(rounds)[i].again <==> SaysYes(rounds[i].answer))
  {
  }

  /** Pass i of the rounds printed a report iff its selection was neither `None` nor empty. */
  lemma PassesReportIff(rounds: seq<Round>)
    ensures forall i :: 0 <= i < |rounds| ==>
      (PassesOf(rounds)[i].report.Some? <==> Selection(rounds[i]).Some? && Selection(rounds[i]).value != [])
  {
    forall i | 0 <= i < |rounds|
      ensures PassesOf(rounds)[i].report.Some? <==> Selection(rounds[i]).Some? && Selection(rounds[i]).value != []
    {
      PassReportSpec(rounds[i]);
    }
  }

  /**
   * The session over rounds, in the program's own terms: it has declined iff some answer is not
   * `y` after stripping and lower-casing; the passes before the last were all answered `y`; and
   * pass i printed a report iff its selection was neither `None` nor empty.
   */
  lemma SessionOfRounds(rounds: seq<Round>)
    ensures Run(PassesOf(rounds)).declined <==> exists i :: 0 <= i < |rounds| && !SaysYes(rounds[i].answer)
    ensures Run(PassesOf(rounds)).passes <= |rounds|
    ensures forall i :: 0 <= i < Run(PassesOf(rounds)).passes - 1 ==> SaysYes(rounds[i].answer)
    ensures forall i :: 0 <= i < |rounds| ==>
      (PassesOf(rounds)[i].report.Some? <==> Selection(rounds[i]).Some? && Selection(rounds[i]).value != [])
  {
    var ps := PassesOf(rounds);
    RunDeclinedIff(ps);
    RunPasses(ps);
    PassesReportIff(rounds);
    PassesAgain(rounds);
    assert (exists i :: 0 <= i < |ps| && !ps[i].again) <==> exists i :: 0 <= i < |rounds| && !SaysYes(rounds[i].answer) by {
      if exists i :: 0 <= i < |rounds| && !SaysYes(rounds[i].answer) {
        var i :| 0 <= i < |rounds| && !SaysYes(rounds[i].answer);
        assert !ps[i].again;
      }
    }
  }
}
