/**
 The records the GitHub API returns and the collection stage of `main`:
 for each configured repository entry, strip it, skip it when blank,
 fetch its open pull requests (a failed fetch yields no records), tag every
 returned record with the identifier it was fetched under, and append.
 */
module PullRequests {

  /** A decoded JSON value (numbers restricted to integers). */
  datatype Json =
    | JNull
    | JBool(b: bool)
    | JNumber(n: int)
    | JString(s: string)
    | JArray(items: seq<Json>)
    | JObject(fields: map<string, Json>)

  /** One pull request as the API returns it: a JSON object, i.e. a dictionary. */
  type Record = map<string, Json>
}

module Collector {
  import Text
  import opened Entries
  import opened PullRequests

  /** The three exception handlers of `get_open_prs`; each one ends in the same `return []`. */
  datatype FetchError = HttpError | RequestError | UnexpectedError

  /** What one request for a repository's open pull requests produced. */
  datatype FetchResult = Fetched(prs: seq<Record>) | FetchFailed(error: FetchError)

  /** The outcome of fetching each repository, supplied from outside the model. */
  type Fetcher = string -> FetchResult

  /** `get_open_prs`: the decoded list on success, the empty list on any error. */
  function GetOpenPrs(fetch: Fetcher, repo: string): seq<Record>
  {
    match fetch(repo)
    case Fetched(prs) => prs
    case FetchFailed(_) => []
  }

  /** `t` is `pr` after `pr['repo'] = repo`: the key is set (overwriting any old value), nothing else moves. */
  predicate TaggedFrom(repo: string, pr: Record, t: Record) {
    && "repo" in t
    && t["repo"] == JString(repo)
    && t.Keys == pr.Keys + {"repo"}
    && forall key :: key in pr && key != "repo" ==> t[key] == pr[key]
  }

  /** The inner loop of the collection: every record of one repository tagged with its identifier. */
  function Tag(repo: string, prs: seq<Record>): (r: seq<Record>)
    ensures |r| == |prs|
  {
    seq(|prs|, i requires 0 <= i < |prs| => prs[i]["repo" := JString(repo)])
  }

  /** Tagging sets `repo` on every record, overwriting any earlier value, and changes nothing else. */
  lemma TagSetsRepo(repo: string, prs: seq<Record>)
    ensures forall i :: 0 <= i < |prs| ==> TaggedFrom(repo, prs[i], Tag(repo, prs)[i])
  {
  }

  /** Reference for the collected list: per-repository tagged results, concatenated in configured order. */
  function Gather(ids: seq<string>, fetch: Fetcher): seq<Record>
  {
    if ids == [] then []
    else Tag(ids[0], GetOpenPrs(fetch, ids[0])) + Gather(ids[1..], fetch)
  }

  /** The same concatenation before tagging. */
  function Untagged(ids: seq<string>, fetch: Fetcher): seq<Record>
  {
    if ids == [] then []
    else GetOpenPrs(fetch, ids[0]) + Untagged(ids[1..], fetch)
  }

  /** For each collected position, the identifier it was fetched under. */
  function Origins(ids: seq<string>, fetch: Fetcher): seq<string>
  {
    if ids == [] then []
    else seq(|GetOpenPrs(fetch, ids[0])|, _ => ids[0]) + Origins(ids[1..], fetch)
  }

  /**
   Tagging invariant: the collected record at position j is the j-th fetched
   record, tagged with the identifier that produced it, and that identifier
   is one of the fetched ones.
   */
  lemma {:induction false} TaggingInvariant(ids: seq<string>, fetch: Fetcher)
    ensures |Origins(ids, fetch)| == |Gather(ids, fetch)| == |Untagged(ids, fetch)|
    ensures forall j :: 0 <= j < |Gather(ids, fetch)| ==>
              TaggedFrom(Origins(ids, fetch)[j], Untagged(ids, fetch)[j], Gather(ids, fetch)[j])
    ensures forall j :: 0 <= j < |Origins(ids, fetch)| ==> Origins(ids, fetch)[j] in ids
    decreases |ids|
  {
    if ids != [] {
      TaggingInvariant(ids[1..], fetch);
      var prs := GetOpenPrs(fetch, ids[0]);
      var g, u, o := Gather(ids, fetch), Untagged(ids, fetch), Origins(ids, fetch);
      var g', u', o' := Gather(ids[1..], fetch), Untagged(ids[1..], fetch), Origins(ids[1..], fetch);
      var n := |prs|;
      TagSetsRepo(ids[0], prs);
      assert g == Tag(ids[0], prs) + g';
      assert u == prs + u';
      assert o == seq(n, _ => ids[0]) + o';
      forall j | 0 <= j < |g|
        ensures TaggedFrom(o[j], u[j], g[j]) && o[j] in ids
      {
        if j < n {
          assert g[j] == Tag(ids[0], prs)[j] && u[j] == prs[j] && o[j] == ids[0];
        } else {
          assert g[j] == g'[j - n] && u[j] == u'[j - n] && o[j] == o'[j - n];
          assert o'[j - n] in ids[1..];
        }
      }
    }
  }

  /** Gathering distributes over concatenation of the identifier list: order is preserved. */
  lemma {:induction false} GatherAppend(a: seq<string>, b: seq<string>, fetch: Fetcher)
    ensures Gather(a + b, fetch) == Gather(a, fetch) + Gather(b, fetch)
    decreases |a|
  {
    if a == [] {
      assert a + b == b;
    } else {
      assert (a + b)[0] == a[0];
      assert (a + b)[1..] == a[1..] + b;
      GatherAppend(a[1..], b, fetch);
    }
  }

  /** Appending one identifier appends that repository's tagged records. */
  lemma GatherSnoc(ids: seq<string>, repo: string, fetch: Fetcher)
    ensures Gather(ids + [repo], fetch) == Gather(ids, fetch) + Tag(repo, GetOpenPrs(fetch, repo))
  {
    GatherAppend(ids, [repo], fetch);
    assert [repo][1..] == [];
    assert Gather([repo], fetch) == Tag(repo, GetOpenPrs(fetch, repo)) + [];
  }

  /** Fetch isolation: a failing repository contributes nothing and leaves the others' contributions intact. */
  lemma FetchIsolation(before: seq<string>, repo: string, after: seq<string>, fetch: Fetcher)
    requires fetch(repo).FetchFailed?
    ensures Gather(before + [repo] + after, fetch) == Gather(before, fetch) + Gather(after, fetch)
  {
    GatherAppend(before + [repo], after, fetch);
    GatherSnoc(before, repo, fetch);
    assert Tag(repo, GetOpenPrs(fetch, repo)) == [];
    assert Gather(before, fetch) + [] == Gather(before, fetch);
  }

  /** A failing repository followed by a succeeding one: the result is exactly the second one's records, tagged. */
  lemma FailedThenSucceeding(failing: string, succeeding: string, fetch: Fetcher)
    requires fetch(failing).FetchFailed? && fetch(succeeding).Fetched?
    ensures Gather([failing, succeeding], fetch) == Tag(succeeding, fetch(succeeding).prs)
  {
    FetchIsolation([], failing, [succeeding], fetch);
    assert [] + [failing] + [succeeding] == [failing, succeeding];
    GatherSnoc([], succeeding, fetch);
    assert [] + [succeeding] == [succeeding];
  }

  /** The collected list is empty exactly when every fetched repository produced no records. */
  lemma {:induction false} GatherEmptyIff(ids: seq<string>, fetch: Fetcher)
    ensures Gather(ids, fetch) == [] <==> forall k :: 0 <= k < |ids| ==> GetOpenPrs(fetch, ids[k]) == []
    decreases |ids|
  {
    if ids != [] {
      GatherEmptyIff(ids[1..], fetch);
      if forall k :: 0 <= k < |ids[1..]| ==> GetOpenPrs(fetch, ids[1..][k]) == [] {
        if GetOpenPrs(fetch, ids[0]) == [] {
          forall k | 0 <= k < |ids| ensures GetOpenPrs(fetch, ids[k]) == [] {
            if k > 0 {
              assert ids[k] == ids[1..][k - 1];
            }
          }
        }
      }
      if forall k :: 0 <= k < |ids| ==> GetOpenPrs(fetch, ids[k]) == [] {
        assert GetOpenPrs(fetch, ids[0]) == [];
        forall k | 0 <= k < |ids[1..]| ensures GetOpenPrs(fetch, ids[1..][k]) == [] {
          assert ids[1..][k] == ids[k + 1];
        }
      }
    }
  }

  /** The inner `for pr in prs: pr['repo'] = repo` loop. */
  method TagAll(repo: string, prs: seq<Record>) returns (tagged: seq<Record>)
    ensures tagged == Tag(repo, prs)
  {
    tagged := [];
    var j := 0;
    while j < |prs|
      invariant 0 <= j <= |prs|
      invariant |tagged| == j
      invariant forall k :: 0 <= k < j ==> tagged[k] == prs[k]["repo" := JString(repo)]
    {
      tagged := tagged + [prs[j]["repo" := JString(repo)]];
      j := j + 1;
    }
  }

  /** One iteration of the collection loop keeps the loop's invariant. */
  lemma CollectStep(entries: seq<string>, i: nat, repo: string, fetch: Fetcher, fetched: seq<string>, all: seq<Record>)
    requires i < |entries| && repo == Text.Strip(entries[i])
    requires fetched == CleanEntries(entries[..i]) && all == Gather(fetched, fetch)
    ensures repo == [] ==> fetched == CleanEntries(entries[..i + 1])
    ensures repo != [] ==> && fetched + [repo] == CleanEntries(entries[..i + 1])
                           && all + Tag(repo, GetOpenPrs(fetch, repo)) == Gather(fetched + [repo], fetch)
  {
    CleanEntriesSnoc(entries, i);
    if repo == [] {
      assert fetched + [] == fetched;
    } else {
      GatherSnoc(fetched, repo, fetch);
    }
  }

  /**
   The loop of `main` that builds the collected list. `fetched` records, in
   order, the identifiers a request was issued for: it depends on the
   configuration only, so a failing repository never stops the ones after it.
   */
  method CollectOpenPrs(entries: seq<string>, fetch: Fetcher) returns (all: seq<Record>, fetched: seq<string>)
    ensures fetched == CleanEntries(entries)
    ensures all == Gather(fetched, fetch)
  {
    all, fetched := [], [];
    for i := 0 to |entries|
      invariant fetched == CleanEntries(entries[..i])
      invariant all == Gather(fetched, fetch)
    {
      var repo := Text.Strip(entries[i]);
      CollectStep(entries, i, repo, fetch, fetched, all);
      if repo != [] {
        var tagged := TagAll(repo, GetOpenPrs(fetch, repo));
        all, fetched := all + tagged, fetched + [repo];
      }
    }
    assert entries[..|entries|] == entries;
  }
}
