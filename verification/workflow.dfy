/**
 `main` of both scripts: collect, then gate. Nothing collected ends the run
 with no report and no e-mail; a failed report ends it with no e-mail;
 otherwise exactly one e-mail is sent, carrying the report just written.
 The two scripts differ only in the subject and body texts, chosen by
 `Variant`; the SMTP send's own failures are caught inside the send
 function, so the send is an effect with no result.
 */
module Workflow {
  import opened Wrappers
  import opened Text
  import opened Entries
  import opened PullRequests
  import opened Collector
  import opened Report

  /** Which of the two scripts runs. */
  datatype Variant = GenerateScript | SendScript

  /**
   The configuration values the workflow depends on, as raw strings: the
   repository list and `TEAM_EMAILS`, each "" when the variable is unset.
   */
  datatype Config = Config(repos: string, teamEmails: string)

  function Subject(v: Variant): string
  {
    match v
    case GenerateScript => "Daily Open PR Report for Multiple Repositories"
    case SendScript => "Daily GitHub Open PR Report"
  }

  /** The text before the list of repositories in the mail body. */
  function BodyPrefix(v: Variant): string
  {
    match v
    case GenerateScript => "Please find attached the daily report of open PRs for repos: "
    case SendScript => "Attached is the daily open PR report for:\n\n"
  }

  /** The text after the list of repositories in the mail body. */
  function BodySuffix(v: Variant): string
  {
    match v
    case GenerateScript => "."
    case SendScript => ""
  }

  /** The mail as composed by the send function. */
  datatype Mail = Mail(subject: string, to: string, body: string, attachment: string)

  /** How a run ends. */
  datatype Outcome =
    | NoOpenPrs
    | ReportFailed(error: ReportError)
    | Mailed(report: ReportFile, mail: Mail)

  /** What a run did: the repositories it fetched, the records it collected and how it ended. */
  datatype RunResult = RunResult(fetched: seq<string>, collected: seq<Record>, outcome: Outcome)

  /** The mails a run sends. */
  function SentMails(r: RunResult): seq<Mail>
  {
    if r.outcome.Mailed? then [r.outcome.mail] else []
  }

  /**
   The mail for a written report: `To` is the recipients joined by ", ", the
   body lists the RAW repository entries (unstripped, blanks included).
   */
  function Compose(v: Variant, cfg: Config, attachment: string): Mail
  {
    Mail(Subject(v),
         Join(ParseRecipients(cfg.teamEmails), ", "),
         BodyPrefix(v) + Join(Split(cfg.repos, ','), ", ") + BodySuffix(v),
         attachment)
  }

  /**
   The gate of `main` after collection: nothing collected means no report and
   no mail; a report failure means no mail; otherwise one mail with the report.
   */
  function Gate(v: Variant, cfg: Config, collected: seq<Record>, writeOk: bool): (o: Outcome)
    ensures o.NoOpenPrs? <==> collected == []
    ensures o.Mailed? ==> o.mail.attachment == o.report.filename == DefaultFilename
  {
    if collected == [] then NoOpenPrs
    else
      match CreateReport(collected, writeOk)
      case Failure(e) => ReportFailed(e)
      case Success(report) => Mailed(report, Compose(v, cfg, report.filename))
  }

  /** One run of `main`, with fetch results and the write's success supplied from outside. */
  function Run(v: Variant, cfg: Config, fetch: Fetcher, writeOk: bool): (r: RunResult)
    ensures AllClean(r.fetched)
    ensures SentMails(r) != [] ==> r.collected != [] && writeOk
  {
    SplitPiecesFree(cfg.repos, ',');
    CleanPiecesAreClean(Split(cfg.repos, ','));
    var fetched := CleanEntries(Split(cfg.repos, ','));
    RunResult(fetched, Gather(fetched, fetch), Gate(v, cfg, Gather(fetched, fetch), writeOk))
  }

  /**
   `main` step by step: the collection loop, then the gate. It makes the
   same run as the functional definition.
   */
  method RunMain(v: Variant, cfg: Config, fetch: Fetcher, writeOk: bool) returns (r: RunResult)
    ensures r == Run(v, cfg, fetch, writeOk)
  {
    var all, fetched := CollectOpenPrs(Split(cfg.repos, ','), fetch);
    if all == [] {
      return RunResult(fetched, all, NoOpenPrs);
    }
    var created := CreateReport(all, writeOk);
    if created.Failure? {
      return RunResult(fetched, all, ReportFailed(created.error));
    }
    var mail := Compose(v, cfg, created.value.filename);
    r := RunResult(fetched, all, Mailed(created.value, mail));
  }

  /** A repository list that is empty or holds only blank entries makes no fetch, no report and no mail. */
  lemma BlankConfigDoesNothing(v: Variant, cfg: Config, fetch: Fetcher, writeOk: bool)
    requires forall k :: 0 <= k < |Split(cfg.repos, ',')| ==> AllSpace(Split(cfg.repos, ',')[k])
    ensures Run(v, cfg, fetch, writeOk).fetched == []
    ensures Run(v, cfg, fetch, writeOk).outcome == NoOpenPrs
    ensures SentMails(Run(v, cfg, fetch, writeOk)) == []
  {
    CleanEntriesEmptyIff(Split(cfg.repos, ','));
  }

  /** No report and no mail exactly when no fetched repository returned an open pull request. */
  lemma NothingCollectedGate(v: Variant, cfg: Config, fetch: Fetcher, writeOk: bool)
    ensures var r := Run(v, cfg, fetch, writeOk);
            r.outcome.NoOpenPrs? <==> forall k :: 0 <= k < |r.fetched| ==> GetOpenPrs(fetch, r.fetched[k]) == []
    ensures var r := Run(v, cfg, fetch, writeOk);
            r.outcome.NoOpenPrs? ==> SentMails(r) == []
  {
    var r := Run(v, cfg, fetch, writeOk);
    GatherEmptyIff(r.fetched, fetch);
  }

  /** The report stage fails exactly when something was collected and a record lacks a field or the write fails. */
  lemma ReportFailureGate(v: Variant, cfg: Config, collected: seq<Record>, writeOk: bool)
    ensures var o := Gate(v, cfg, collected, writeOk);
            o.ReportFailed? <==>
              collected != [] && (!writeOk || exists j :: 0 <= j < |collected| && ProjectRow(collected[j]).None?)
  {
  }

  /** Exactly one mail is sent when something was collected, every record projects and the write succeeds. */
  lemma MailGate(v: Variant, cfg: Config, fetch: Fetcher, writeOk: bool)
    ensures var r := Run(v, cfg, fetch, writeOk);
            |SentMails(r)| == 1 <==>
              r.collected != [] && writeOk && forall j :: 0 <= j < |r.collected| ==> ProjectRow(r.collected[j]).Some?
  {
    var r := Run(v, cfg, fetch, writeOk);
    assert r.outcome == Gate(v, cfg, r.collected, writeOk);
  }

  /**
   The report that is mailed holds the collected records in order, and each
   row's Repository is the identifier its record was fetched under.
   */
  lemma MailedReportIsTagged(ids: seq<string>, fetch: Fetcher, writeOk: bool)
    ensures var report := CreateReport(Gather(ids, fetch), writeOk);
            report.Success? ==>
              && ReadSheet(report.value.sheet).Some?
              && |ReadSheet(report.value.sheet).value| == |Gather(ids, fetch)| == |Origins(ids, fetch)|
              && forall j :: 0 <= j < |Gather(ids, fetch)| ==>
                   ReadSheet(report.value.sheet).value[j].repository == JString(Origins(ids, fetch)[j])
  {
    var collected := Gather(ids, fetch);
    var report := CreateReport(collected, writeOk);
    TaggingInvariant(ids, fetch);
    if report.Success? {
      var rows := ProjectRows(collected).value;
      assert ReadSheet(report.value.sheet) == Some(rows);
      forall j | 0 <= j < |collected|
        ensures rows[j].repository == JString(Origins(ids, fetch)[j])
      {
        assert ProjectRow(collected[j]) == Some(rows[j]);
        assert TaggedFrom(Origins(ids, fetch)[j], Untagged(ids, fetch)[j], collected[j]);
      }
    }
  }

  /**
   The headers of the one mail: `To` parses back to the recipient list, and
   the body is the raw repository value with every comma widened to ", ",
   so blank and unstripped entries appear in it as configured.
   */
  lemma MailHeaders(v: Variant, cfg: Config, attachment: string)
    ensures var mail := Compose(v, cfg, attachment);
            && mail.subject == Subject(v)
            && mail.attachment == attachment
            && ParseRecipients(mail.to) == ParseRecipients(cfg.teamEmails)
            && mail.body == BodyPrefix(v) + Replace(cfg.repos, ',', ", ") + BodySuffix(v)
  {
    RecipientsHeaderRoundTrip(cfg.teamEmails);
    JoinSplitIsReplace(cfg.repos, ',', ", ");
  }
}
