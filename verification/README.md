# Open pull request reporter: a Dafny model

The two scripts `pr-reporter/scripts/generate_pr_report.py` and
`pr-reporter/scripts/send_pr_report.py` run the same daily workflow:

1. read a comma-separated list of GitHub repositories and a comma-separated
   list of team e-mail addresses from the environment;
2. for every non-blank repository entry, fetch its open pull requests (a
   failing request yields an empty list), tag each pull request with the
   repository it came from, and append it to one collected list;
3. if nothing was collected, stop; otherwise turn every pull request into a
   row of eight fixed columns and write `open_prs_report.xlsx`; if that
   fails, stop;
4. otherwise send one e-mail with the report attached to all recipients.

The scripts are identical apart from the names of environment variables,
log texts and the e-mail subject and body. One functional model covers both.
`Workflow.Variant` selects the subject and body. Every external call is an
input of the model:

- the GitHub response per repository is a `Collector.Fetcher`;
- the success of the Excel write is a `writeOk` flag;
- the SMTP send is recorded as the `Mailed` outcome. Its errors are caught
  inside the send function, so it has no result.

Modules, by file:

- `Wrappers` (wrappers.dfy): `Option` and `Result`.
- `Sequences` (sequences.dfy): small facts about sequence concatenation.
- `Text` (text.dfy): Python's `str.split(',')`, `str.strip()` (with the full
  `str.isspace` character set) and `', '.join`. Includes the split/join round
  trips and a uniqueness characterisation of `strip`.
- `Entries` (entries.dfy): cleaning of comma-separated configuration values.
  This is the `RECIPIENTS` comprehension, and the strip-and-skip at the head
  of the collection loop.
- `PullRequests`, `Collector` (collector.dfy): JSON records, `get_open_prs`'s
  error-to-empty behaviour, tagging, and the collection loop.
- `Report` (report.dfy): row projection, the written sheet, and
  `create_excel`.
- `Workflow` (workflow.dfy): `main`'s gate, composition of the mail, and the
  whole run.

The two scripts have the same code at shifted lines:

| generate_pr_report.py | send_pr_report.py | what |
|---|---|---|
| 9, 13, 18 | 9, 13, 18 | configuration values, recipient parsing |
| 20-38 | 20-37 | `get_open_prs` |
| 40-65 | 39-62 | `create_excel` / `create_excel_report` |
| 67-99 | 64-97 | `send_email_with_attachment` / `send_email` |
| 101-132 | 99-124 | `main` |

## Model

| member | source | states |
|---|---|---|
| Text.Strip | pr-reporter/scripts/generate_pr_report.py:18 | `strip()` returns a string with no leading or trailing whitespace, never longer than its input. It is empty exactly when the input is all whitespace. |
| Text.StripRemovesSpace | pr-reporter/scripts/generate_pr_report.py:105 | Everything `strip()` removes, before and after the slice it keeps, is whitespace. |
| Text.StripKeepsCharacters | pr-reporter/scripts/send_pr_report.py:103 | Stripping never introduces a character: an entry without a comma strips to one without a comma. |
| Text.StripUnique | pr-reporter/scripts/send_pr_report.py:103 | Any string made of whitespace, then a stripped core, then whitespace strips to exactly that core. This characterises `strip()` fully. |
| Text.StripIdempotent | pr-reporter/scripts/send_pr_report.py:18 | Stripping an already stripped entry changes nothing. |
| Text.Split | pr-reporter/scripts/generate_pr_report.py:9 | `split(',')` always returns at least one piece, and at most one more piece than the value has characters. |
| Text.SplitPiecesFree | pr-reporter/scripts/send_pr_report.py:9 | No piece of `split(',')` contains a comma. |
| Text.JoinSplit | pr-reporter/scripts/send_pr_report.py:9 | Round trip: joining the pieces of `s.split(',')` with "," gives back `s`. No character of the configuration value is lost. |
| Text.SplitJoin | pr-reporter/scripts/send_pr_report.py:18 | Round trip: splitting a ","-join of comma-free pieces gives back the same pieces. |
| Text.JoinSplitIsReplace | pr-reporter/scripts/generate_pr_report.py:131 | `", ".join(s.split(','))` equals `s` with every comma widened to ", ". So the body lists the raw entries, blanks and untrimmed ones included. |
| Entries.CleanOne | pr-reporter/scripts/generate_pr_report.py:105-107 | One loop step keeps at most one entry, and a kept entry is non-empty and stripped. |
| Entries.CleanEntries | pr-reporter/scripts/generate_pr_report.py:104-107 | Strip-and-skip never yields more entries than were configured. |
| Entries.CleanPiecesAreClean | pr-reporter/scripts/send_pr_report.py:18 | Cleaning comma-free pieces yields entries that are non-empty, stripped and comma-free. |
| Entries.ParseRecipients | pr-reporter/scripts/send_pr_report.py:18 | Every recipient is non-empty, has no surrounding whitespace and contains no comma. |
| Entries.CleanEntriesAppend | pr-reporter/scripts/generate_pr_report.py:18 | Cleaning distributes over concatenation, so the cleaned entries keep the order of the segments. |
| Entries.CleanEntriesSnoc | pr-reporter/scripts/send_pr_report.py:102-105 | One more loop step appends what that step keeps: the stripped entry when it is not blank, nothing otherwise. |
| Entries.CleanEntriesMembership | pr-reporter/scripts/send_pr_report.py:104-105 | A value is kept exactly when it is non-empty and some configured entry strips to it. This holds in both directions. |
| Entries.CleanEntriesEmptyIff | pr-reporter/scripts/generate_pr_report.py:105-107 | No entry survives exactly when every configured entry is blank or whitespace only. |
| Entries.CleanEntriesIdempotent | pr-reporter/scripts/generate_pr_report.py:18 | Cleaning an already cleaned list changes nothing. |
| Entries.EmptyValueHasNoEntries | pr-reporter/scripts/generate_pr_report.py:9 | An unset or empty repository variable splits to `[""]`, which yields no entries and so no fetches. |
| Entries.RecipientsHeaderRoundTrip | pr-reporter/scripts/generate_pr_report.py:76 | Parsing the `To` header (recipients joined by ", ") again gives the same recipient list. |
| Collector.Tag | pr-reporter/scripts/generate_pr_report.py:110-111 | Tagging keeps the number of records. |
| Collector.TagSetsRepo | pr-reporter/scripts/generate_pr_report.py:110-111 | Each tagged record has `repo` set to the identifier, overwriting any earlier value. The key set is the old keys plus `repo`. Every other key keeps its value. |
| Collector.TagAll | pr-reporter/scripts/send_pr_report.py:108-109 | The imperative tagging loop produces exactly the tagged list. |
| Collector.TaggingInvariant | pr-reporter/scripts/generate_pr_report.py:103-112 | Collected record j is fetched record j tagged with the identifier it was fetched under, and that identifier is one of the fetched ones. |
| Collector.GatherAppend | pr-reporter/scripts/send_pr_report.py:100-110 | The collected list over a concatenation of identifiers is the concatenation of the collected lists. The per-repository results appear in configured order. |
| Collector.GatherSnoc | pr-reporter/scripts/generate_pr_report.py:112 | `extend` appends one repository's tagged records after everything collected so far. |
| Collector.FetchIsolation | pr-reporter/scripts/generate_pr_report.py:28-38 | A repository whose fetch fails contributes nothing. The repositories before and after it contribute exactly what they would without it. |
| Collector.FailedThenSucceeding | pr-reporter/scripts/send_pr_report.py:27-37 | If repository A fails and B succeeds, the collected list is exactly B's records tagged with B. |
| Collector.GatherEmptyIff | pr-reporter/scripts/send_pr_report.py:112-114 | The collected list is empty exactly when every fetched repository returned no record, whether by failure or by having none. |
| Collector.CollectStep | pr-reporter/scripts/send_pr_report.py:101-110 | One iteration keeps the loop invariant: a blank entry changes nothing, a non-blank one appends its identifier to the fetched list and its tagged records to the collected list. |
| Collector.CollectOpenPrs | pr-reporter/scripts/generate_pr_report.py:103-112 | The collection loop fetches exactly the stripped non-blank entries, in order, whatever the fetches return. Its result is the ordered concatenation of the tagged per-repository results. |
| Report.ProjectRowFollowsColumns | pr-reporter/scripts/generate_pr_report.py:48-58 | A record yields a row exactly when every column's subscript chain succeeds. Cell j is then what column j's chain reads: Author is `user.login`, Repository is `repo`. |
| Report.ProjectRows | pr-reporter/scripts/send_pr_report.py:45-55 | Projection succeeds exactly when every record projects. It then gives one row per record, in the same order, with row i the projection of record i. |
| Report.ReadSheetRoundTrip | pr-reporter/scripts/generate_pr_report.py:59-60 | Reading the written sheet gives back exactly the rows, in order. The sheet is a header row then one row per record, or empty when there are no rows. |
| Report.CreateReport | pr-reporter/scripts/generate_pr_report.py:40-65 | A report exists exactly when every record projects and the write succeeds. A missing field is the error exactly when some record lacks one. The file is `open_prs_report.xlsx`. It holds a header row and one row per record, and these read back as the projected rows. With no records, nothing is written, not even the header. |
| Workflow.Gate | pr-reporter/scripts/generate_pr_report.py:114-132 | The run stops with "no open PRs" exactly when nothing was collected. A mailed report is attached under its own file name, `open_prs_report.xlsx`. |
| Workflow.Run | pr-reporter/scripts/send_pr_report.py:99-124 | Every fetched identifier is clean: non-empty, stripped and comma-free. A mail is sent only when something was collected and the write succeeded. |
| Workflow.RunMain | pr-reporter/scripts/generate_pr_report.py:101-132 | The step-by-step `main` (collection loop, empty check, report, send) makes the same run as the functional model. |
| Workflow.BlankConfigDoesNothing | pr-reporter/scripts/send_pr_report.py:102-105 | A repository list that is empty or holds only blank entries fetches nothing, writes no report and sends no mail. |
| Workflow.NothingCollectedGate | pr-reporter/scripts/generate_pr_report.py:114-120 | The run ends with "no open PRs" exactly when no fetched repository returned a record. In that case no mail is sent. |
| Workflow.ReportFailureGate | pr-reporter/scripts/send_pr_report.py:116-120 | The report stage fails exactly when something was collected and either a record lacks a field or the write fails. |
| Workflow.MailGate | pr-reporter/scripts/generate_pr_report.py:122-132 | Exactly one mail is sent when something was collected, every record projects and the write succeeds. Otherwise none is sent. |
| Workflow.MailedReportIsTagged | pr-reporter/scripts/send_pr_report.py:47 | The written report has one row per collected record. Row j's Repository is the identifier record j was fetched under. |
| Workflow.MailHeaders | pr-reporter/scripts/send_pr_report.py:122-123 | The mail has the variant's subject and the given attachment, and its `To` header parses back to the recipient list. Its body is the fixed prefix, then the raw repository value with every comma widened to ", ", then the fixed suffix. |

## Left out

- HTTP fetching (`requests.get`, `raise_for_status`, `response.json()`) is an oracle, `Collector.Fetcher`. The three exception handlers are kept as `FetchError` values, all mapped to the empty list. The oracle is a function of the identifier, so one identifier configured twice sees the same answer both times.
- A successful response whose JSON is not a list of objects is not modelled: the model's successful fetch is a list of dictionaries. In the scripts, an empty object or an empty string behaves like an empty list, because the tagging loop runs zero times and `extend` adds nothing; `Fetched([])` covers that case. A null, a number or a boolean makes `for pr in prs` raise (generate_pr_report.py:110, send_pr_report.py:108). A non-empty object, a non-empty string, or a list holding anything other than an object makes `pr['repo'] = repo` raise. Neither error is caught, so the script ends.
- JSON numbers are integers only. Floating point values are not modelled.
- Excel serialisation (`pd.DataFrame`, `to_excel`) is the `writeOk` input. Any exception there, other than a failed subscript (`KeyError` or `TypeError`) while building a row, counts as a write failure. Cell typing inside the spreadsheet is not modelled.
- The fetch and the send are assumed to return. `requests.get` (generate_pr_report.py:29, send_pr_report.py:28) and `smtplib.SMTP` (generate_pr_report.py:89, send_pr_report.py:86) are called without a timeout, so a stalled connection blocks `main` forever. The repositories after it are then never fetched. `Collector.CollectOpenPrs` and `Collector.FetchIsolation` hold only for fetches that return.
- SMTP and MIME construction (`smtplib`, `starttls`, `login`, `add_attachment`, reading the file back) are not modelled. All their exceptions are caught and printed inside the send function, so the model records the composed mail and nothing about delivery. The `From` header, sender password, server and port are passed through by the source unchanged and are not part of the model.
- Reading the environment (`os.getenv`) becomes the `Workflow.Config` strings, with "" for an unset variable. The `int(...)` parse of `SMTP_PORT` at import time is not modelled.
- `print` logging is not modelled. This includes the "no open pull requests" subject and body that `generate_pr_report.py` builds and then discards without sending.
- Four behaviours of the code worth stating, all followed by the model:
  - the recipient list is an ordered list that keeps duplicates (generate_pr_report.py:18);
  - the report is written to the fixed relative name `open_prs_report.xlsx` and no directory is created (generate_pr_report.py:40 and 60, send_pr_report.py:39 and 57);
  - missing credentials are never checked (generate_pr_report.py:10-12);
  - no mail is sent when nothing was collected (generate_pr_report.py:114-120, send_pr_report.py:112-114).
