/**
 Comma-separated configuration values. Both scripts read two of them: the
 team's e-mail addresses (cleaned once, at load time, into the recipient
 list) and the repository identifiers (split raw, then stripped and
 blank-checked one by one inside the collection loop). Both cleanings keep
 the stripped, non-blank pieces in order, so one definition serves both.
 */
module Entries {
  import opened Sequences
  import opened Text

  /** A configured value after cleaning: non-blank, stripped and free of the separator. */
  predicate IsCleanEntry(e: string) {
    e != [] && IsStripped(e) && ',' !in e
  }

  /** One loop step: the stripped entry, or nothing when it is blank. */
  function CleanOne(e: string): (r: seq<string>)
    ensures |r| <= 1
    ensures r != [] ==> r[0] != [] && IsStripped(r[0])
  {
    var s := Strip(e);
    if s == [] then [] else [s]
  }

  /** The stripped entries that are not blank, in their original order. */
  function CleanEntries(entries: seq<string>): (r: seq<string>)
    ensures |r| <= |entries|
  {
    if entries == [] then []
    else CleanOne(entries[0]) + CleanEntries(entries[1..])
  }

  /** Every entry of a list is clean. */
  predicate AllClean(xs: seq<string>) {
    forall k :: 0 <= k < |xs| ==> IsCleanEntry(xs[k])
  }

  /** Cleaning the pieces of a comma split yields clean entries, free of commas. */
  lemma {:induction false} CleanPiecesAreClean(entries: seq<string>)
    requires forall k :: 0 <= k < |entries| ==> ',' !in entries[k]
    ensures AllClean(CleanEntries(entries))
    decreases |entries|
  {
    if entries != [] {
      CleanPiecesAreClean(entries[1..]);
      StripKeepsCharacters(entries[0], ',');
      var r := CleanEntries(entries);
      var first := CleanOne(entries[0]);
      var rest := CleanEntries(entries[1..]);
      assert r == first + rest;
      forall k | 0 <= k < |r| ensures IsCleanEntry(r[k]) {
        if k >= |first| {
          assert r[k] == rest[k - |first|];
        }
      }
    }
  }

  /** The recipient list: `TEAM_EMAILS` split on commas, each piece stripped, blank pieces dropped. */
  function ParseRecipients(teamEmails: string): (r: seq<string>)
    ensures AllClean(r)
    ensures |r| <= 1 + |teamEmails|
  {
    SplitPiecesFree(teamEmails, ',');
    CleanPiecesAreClean(Split(teamEmails, ','));
    CleanEntries(Split(teamEmails, ','))
  }

  /** Cleaning distributes over concatenation: order across pieces is preserved. */
  lemma {:induction false} CleanEntriesAppend(a: seq<string>, b: seq<string>)
    ensures CleanEntries(a + b) == CleanEntries(a) + CleanEntries(b)
    decreases |a|
  {
    if a != [] {
      var x, tail := a[0], a[1..];
      CleanEntriesAppend(tail, b);
      HeadTail(a, b);
      CleanEntriesCons(x, tail + b);
      CleanEntriesCons(x, tail);
      Assoc(CleanOne(x), CleanEntries(tail), CleanEntries(b));
    } else {
      Unit(b);
      Unit(CleanEntries(b));
    }
  }

  /** Cleaning one more entry of a list appends that entry when it is not blank. */
  lemma CleanEntriesSnoc(entries: seq<string>, i: nat)
    requires i < |entries|
    ensures CleanEntries(entries[..i + 1]) ==
              CleanEntries(entries[..i]) + CleanOne(entries[i])
  {
    assert entries[..i + 1] == entries[..i] + [entries[i]];
    CleanEntriesAppend(entries[..i], [entries[i]]);
    CleanEntriesCons(entries[i], []);
  }

  /** A value survives cleaning exactly when some entry strips to it and it is not blank. */
  lemma {:induction false} CleanEntriesMembership(entries: seq<string>, x: string)
    ensures x in CleanEntries(entries) <==>
              x != [] && exists k :: 0 <= k < |entries| && Strip(entries[k]) == x
    decreases |entries|
  {
    if entries != [] {
      CleanEntriesMembership(entries[1..], x);
      if exists k :: 0 <= k < |entries| && Strip(entries[k]) == x {
        var k :| 0 <= k < |entries| && Strip(entries[k]) == x;
        if k > 0 {
          assert Strip(entries[1..][k - 1]) == x;
        }
      }
      if exists k :: 0 <= k < |entries[1..]| && Strip(entries[1..][k]) == x {
        var k :| 0 <= k < |entries[1..]| && Strip(entries[1..][k]) == x;
        assert Strip(entries[k + 1]) == x;
      }
    }
  }

  /** Cleaning leaves nothing exactly when every entry is blank or whitespace only. */
  lemma {:induction false} CleanEntriesEmptyIff(entries: seq<string>)
    ensures CleanEntries(entries) == [] <==> forall k :: 0 <= k < |entries| ==> AllSpace(entries[k])
    decreases |entries|
  {
    if entries != [] {
      CleanEntriesEmptyIff(entries[1..]);
      if forall k :: 0 <= k < |entries[1..]| ==> AllSpace(entries[1..][k]) {
        if AllSpace(entries[0]) {
          forall k | 0 <= k < |entries| ensures AllSpace(entries[k]) {
            if k > 0 {
              assert entries[k] == entries[1..][k - 1];
            }
          }
        }
      }
      if forall k :: 0 <= k < |entries| ==> AllSpace(entries[k]) {
        assert AllSpace(entries[0]);
        forall k | 0 <= k < |entries[1..]| ensures AllSpace(entries[1..][k]) {
          assert entries[1..][k] == entries[k + 1];
        }
      }
    }
  }

  /** Cleaning an already clean list changes nothing. */
  lemma {:induction false} CleanEntriesIdempotent(entries: seq<string>)
    ensures CleanEntries(CleanEntries(entries)) == CleanEntries(entries)
    decreases |entries|
  {
    if entries != [] {
      var first := CleanOne(entries[0]);
      var rest := CleanEntries(entries[1..]);
      CleanEntriesIdempotent(entries[1..]);
      CleanEntriesAppend(first, rest);
      if first != [] {
        StripIdempotent(entries[0]);
        CleanEntriesCons(first[0], []);
        assert [first[0]] + [] == first;
      }
    }
  }

  /** An empty configuration value splits to `[""]` and so yields no entries at all. */
  lemma EmptyValueHasNoEntries()
    ensures Split([], ',') == [[]]
    ensures CleanEntries(Split([], ',')) == []
  {
    assert AllSpace([]);
  }

  /**
   Reparsing the `To:` header gives the recipient list back: recipients hold no
   comma and no surrounding whitespace, so splitting `", "`-joined recipients
   on commas and stripping recovers each one.
   */
  lemma RecipientsHeaderRoundTrip(teamEmails: string)
    ensures ParseRecipients(Join(ParseRecipients(teamEmails), ", ")) == ParseRecipients(teamEmails)
  {
    var xs := ParseRecipients(teamEmails);
    ReparseJoined([], xs);
    assert [] + Join(xs, ", ") == Join(xs, ", ");
  }

  /** Whitespace holds no comma. */
  lemma SpaceHasNoComma(p: string)
    requires AllSpace(p)
    ensures ',' !in p
  {
    assert !IsSpace(',');
  }

  /** Cleaning a list with a known first entry. */
  lemma CleanEntriesCons(x: string, rest: seq<string>)
    ensures CleanEntries([x] + rest) == CleanOne(x) + CleanEntries(rest)
  {
    assert ([x] + rest)[0] == x;
    assert ([x] + rest)[1..] == rest;
  }

  /** A whitespace prefix followed by a clean entry holds no comma and strips to that entry. */
  lemma PaddedEntry(p: string, x: string)
    requires AllSpace(p) && IsCleanEntry(x)
    ensures ',' !in p + x
    ensures Strip(p + x) == x
  {
    SpaceHasNoComma(p);
    StripUnique(p, x, []);
    assert p + x + [] == p + x;
  }

  /** A whitespace-only value yields no entry. */
  lemma ReparseBlank(p: string)
    requires AllSpace(p)
    ensures CleanEntries(Split(p, ',')) == []
  {
    SpaceHasNoComma(p);
    SplitNoSeparator(p, ',');
    CleanEntriesCons(p, []);
  }

  /** A padded single entry yields that entry. */
  lemma ReparseSingle(p: string, x: string)
    requires AllSpace(p) && IsCleanEntry(x)
    ensures CleanEntries(Split(p + x, ',')) == [x]
  {
    PaddedEntry(p, x);
    SplitNoSeparator(p + x, ',');
    CleanEntriesCons(p + x, []);
  }

  /** Unfolding a ", "-join of two or more pieces at its first comma. */
  lemma JoinAtFirst(p: string, xs: seq<string>)
    requires |xs| >= 2
    ensures p + Join(xs, ", ") == (p + xs[0]) + [','] + (" " + Join(xs[1..], ", "))
  {
  }

  /** The inductive step of the round trip, for two or more recipients. */
  lemma ReparseStep(p: string, xs: seq<string>)
    requires |xs| >= 2 && AllSpace(p) && IsCleanEntry(xs[0])
    requires CleanEntries(Split(" " + Join(xs[1..], ", "), ',')) == xs[1..]
    ensures CleanEntries(Split(p + Join(xs, ", "), ',')) == xs
  {
    var head := p + xs[0];
    var tail := " " + Join(xs[1..], ", ");
    PaddedEntry(p, xs[0]);
    JoinAtFirst(p, xs);
    SplitAtFirst(head, ',', tail);
    CleanEntriesCons(head, Split(tail, ','));
    assert CleanOne(head) == [xs[0]];
    assert [xs[0]] + xs[1..] == xs;
  }

  /** Generalisation of the round trip: a whitespace prefix before the first piece is stripped away too. */
  lemma {:induction false} ReparseJoined(p: string, xs: seq<string>)
    requires AllSpace(p)
    requires AllClean(xs)
    ensures CleanEntries(Split(p + Join(xs, ", "), ',')) == xs
    decreases |xs|
  {
    if xs == [] {
      assert p + Join(xs, ", ") == p;
      ReparseBlank(p);
    } else if |xs| == 1 {
      assert p + Join(xs, ", ") == p + xs[0];
      ReparseSingle(p, xs[0]);
    } else {
      assert AllSpace(" ");
      assert forall k :: 0 <= k < |xs[1..]| ==> xs[1..][k] == xs[k + 1];
      ReparseJoined(" ", xs[1..]);
      ReparseStep(p, xs);
    }
  }
}
