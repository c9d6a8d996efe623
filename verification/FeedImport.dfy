/** internal/newsletters/import.go: reading an export, and resolving its feeds in the background while
their owner retries and removes them.
*/
module FeedImport {
  import opened Outcomes
  import opened Calendar
  import opened Schedule

  /** What migration 20261008120000 did to stored rows, done to a version 1 export. */
  function Normalized(version: int, s: Settings): Settings {
    if version != 1 then s
    else
      match s.frequency
      case Weekly => if s.sendDay > 6 then s.(sendDay := GoRemainder(s.sendDay, 7)) else s
      case Monthly => if s.sendDay < 1 then s.(sendDay := 1) else s
      case _ => s
  }

  method NormalizeLegacySendDays(version: int, newsletters: array<Settings>)
    modifies newsletters
    ensures forall i :: 0 <= i < newsletters.Length ==> newsletters[i] == Normalized(version, old(newsletters[i]))
  {
    if version != 1 {
      return;
    }
    for i := 0 to newsletters.Length
      invariant forall k :: 0 <= k < i ==> newsletters[k] == Normalized(version, old(newsletters[k]))
      invariant forall k :: i <= k < newsletters.Length ==> newsletters[k] == old(newsletters[k])
    {
      match newsletters[i].frequency {
        case Weekly =>
          if newsletters[i].sendDay > 6 {
            newsletters[i] := newsletters[i].(sendDay := GoRemainder(newsletters[i].sendDay, 7));
          }
        case Monthly =>
          if newsletters[i].sendDay < 1 {
            newsletters[i] := newsletters[i].(sendDay := 1);
          }
        case _ =>
      }
    }
  }

  lemma WeekdayOfLargeDay(sendDay: int, weekday: int)
    requires sendDay >= 0 && 0 <= weekday < 7
    ensures GoRemainder(GoRemainder(sendDay, 7) - weekday + 7, 7) == GoRemainder(sendDay - weekday + 7, 7)
  {
  }

  /** Normalising never moves a send: in any zone, from any base, both send times stay what they were. */
  lemma NormalizingKeepsSendTimes(version: int, s: Settings, location: Option<Zone>, base: int)
    requires 0 <= s.sendDay
    ensures ComputeNextSendTime(Normalized(version, s), location, base) == ComputeNextSendTime(s, location, base)
    ensures ComputeLastSendTime(Normalized(version, s), location, base) == ComputeLastSendTime(s, location, base)
  {
    hide CivilOf, DateIn, AddDays, LocalDay, GoRemainder, NormalizedDayNumber;
    if location.Some? && s.frequency.Weekly? {
      var z := location.value;
      var local := CivilOf(LocalDay(z, base));
      var today := DateIn(z, local.year, local.month, local.day, SendClock(s));
      WeekdayOfLargeDay(s.sendDay, Weekday(LocalDay(z, today)));
    }
  }

  /** What it yields is what the API accepts, and normalising again changes nothing. */
  lemma NormalizedIsValid(s: Settings)
    requires 0 <= s.sendDay <= 31
    ensures ValidSendDay(s.frequency, Some(Normalized(1, s).sendDay))
    ensures Normalized(1, Normalized(1, s)) == Normalized(1, s)
    ensures ValidSendDay(s.frequency, Some(s.sendDay)) <==> Normalized(1, s) == s
  {
  }

  datatype ExportableFeed = ExportableFeed(url: string, alias: string, inactive: bool)

  /** An export lists a feed once for each place it was in; its first place counts. */
  function FirstOccurrences(exported: seq<ExportableFeed>): seq<ExportableFeed> {
    if exported == [] then []
    else
      var n := |exported| - 1;
      var firsts := FirstOccurrences(exported[..n]);
      if Mentions(exported[..n], exported[n].url) then firsts else firsts + [exported[n]]
  }

  predicate Mentions(feeds: seq<ExportableFeed>, url: string) {
    exists i :: 0 <= i < |feeds| && feeds[i].url == url
  }

  function OnlyKnown(feeds: seq<ExportableFeed>, known: map<string, nat>, wanted: bool): seq<ExportableFeed> {
    if feeds == [] then []
    else
      var n := |feeds| - 1;
      OnlyKnown(feeds[..n], known, wanted) + if (feeds[n].url in known) == wanted then [feeds[n]] else []
  }

  /** `f` is exported, and nothing before it has its URL. */
  predicate LeadsIn(exported: seq<ExportableFeed>, f: ExportableFeed) {
    exists k :: 0 <= k < |exported| && exported[k] == f && forall i :: 0 <= i < k ==> exported[i].url != f.url
  }

  lemma LeadsInLonger(exported: seq<ExportableFeed>, last: ExportableFeed, f: ExportableFeed)
    requires LeadsIn(exported, f)
    ensures LeadsIn(exported + [last], f)
  {
    var k :| 0 <= k < |exported| && exported[k] == f && forall i :: 0 <= i < k ==> exported[i].url != f.url;
    assert (exported + [last])[k] == f;
  }

  /** Each distinct URL is handled exactly once, by the first feed that has it. */
  lemma {:induction false} FirstOccurrencesAreFirst(exported: seq<ExportableFeed>)
    ensures
      var firsts := FirstOccurrences(exported);
      && (forall i, j :: 0 <= i < j < |firsts| ==> firsts[i].url != firsts[j].url)
      && (forall url :: Mentions(firsts, url) <==> Mentions(exported, url))
      && (forall f :: f in firsts ==> LeadsIn(exported, f))
  {
    if exported != [] {
      var n := |exported| - 1;
      var shorter, last := exported[..n], exported[n];
      FirstOccurrencesAreFirst(shorter);
      var firsts := FirstOccurrences(shorter);
      MentionsAppend(shorter, last);
      assert shorter + [last] == exported;
      MentionsAppend(firsts, last);
      forall f | f in FirstOccurrences(exported) ensures LeadsIn(exported, f) {
        if f in firsts {
          assert LeadsIn(shorter, f);
          LeadsInLonger(shorter, last, f);
        } else {
          assert exported[n] == f && forall i :: 0 <= i < n ==> exported[i] == shorter[i];
        }
      }
    }
  }

  lemma MentionsAppend(feeds: seq<ExportableFeed>, f: ExportableFeed)
    ensures forall url :: Mentions(feeds + [f], url) <==> Mentions(feeds, url) || url == f.url
  {
    forall url ensures Mentions(feeds + [f], url) <==> Mentions(feeds, url) || url == f.url {
      if Mentions(feeds, url) {
        var i :| 0 <= i < |feeds| && feeds[i].url == url;
        assert (feeds + [f])[i].url == url;
      }
      if url == f.url {
        assert (feeds + [f])[|feeds|].url == url;
      }
    }
  }

  lemma NextFeed(exported: seq<ExportableFeed>, i: nat, known: map<string, nat>)
    requires i < |exported|
    ensures
      var firsts, feed := FirstOccurrences(exported[..i]), exported[i];
      if Mentions(exported[..i], feed.url) then FirstOccurrences(exported[..i + 1]) == firsts
      else
        && FirstOccurrences(exported[..i + 1]) == firsts + [feed]
        && (forall wanted :: OnlyKnown(firsts + [feed], known, wanted)
              == OnlyKnown(firsts, known, wanted) + if (feed.url in known) == wanted then [feed] else [])
    ensures forall url :: Mentions(exported[..i + 1], url) <==> Mentions(exported[..i], url) || url == exported[i].url
  {
    var firsts, feed := FirstOccurrences(exported[..i]), exported[i];
    assert exported[..i + 1] == exported[..i] + [feed];
    assert exported[..i + 1][..i] == exported[..i];
    assert (firsts + [feed])[..|firsts|] == firsts;
    MentionsAppend(exported[..i], feed);
  }

  lemma NothingYet(exported: seq<ExportableFeed>, known: map<string, nat>)
    ensures forall url :: !Mentions(exported[..0], url)
    ensures forall wanted :: OnlyKnown(FirstOccurrences(exported[..0]), known, wanted) == []
  {
  }

  /** Feeds whose URL is in the database are attached at once, the others become import rows. */
  method ImportFeeds(exported: seq<ExportableFeed>, known: map<string, nat>)
    returns (attached: seq<ExportableFeed>, unknown: seq<ExportableFeed>)
    ensures attached == OnlyKnown(FirstOccurrences(exported), known, true)
    ensures unknown == OnlyKnown(FirstOccurrences(exported), known, false)
  {
    hide *;
    attached, unknown := [], [];
    var seenURLs: set<string> := {};
    NothingYet(exported, known);
    for i := 0 to |exported|
      invariant forall url :: url in seenURLs <==> Mentions(exported[..i], url)
      invariant attached == OnlyKnown(FirstOccurrences(exported[..i]), known, true)
      invariant unknown == OnlyKnown(FirstOccurrences(exported[..i]), known, false)
    {
      var feed := exported[i];
      NextFeed(exported, i, known);
      if feed.url in seenURLs {
        continue;
      }
      seenURLs := seenURLs + {feed.url};
      if feed.url !in known {
        unknown := unknown + [feed];
        continue;
      }
      attached := attached + [feed];
    }
    assert exported[..|exported|] == exported;
  }

  /** Every feed goes one way or the other. */
  lemma {:induction false} KnownOrUnknown(feeds: seq<ExportableFeed>, known: map<string, nat>, wanted: bool)
    ensures forall f :: f in OnlyKnown(feeds, known, wanted) <==> f in feeds && (f.url in known) == wanted
    ensures |OnlyKnown(feeds, known, true)| + |OnlyKnown(feeds, known, false)| == |feeds|
  {
    if feeds != [] {
      var n := |feeds| - 1;
      KnownOrUnknown(feeds[..n], known, wanted);
      assert feeds == feeds[..n] + [feeds[n]];
    }
  }

  /** `picked` is what stands at the places `at` of `feeds`, in the same order. */
  predicate InOrderAt(picked: seq<ExportableFeed>, feeds: seq<ExportableFeed>, at: seq<nat>) {
    && |at| == |picked|
    && (forall k :: 0 <= k < |at| ==> at[k] < |feeds| && feeds[at[k]] == picked[k])
    && (forall k, l :: 0 <= k < l < |at| ==> at[k] < at[l])
  }

  lemma PickedLonger(picked: seq<ExportableFeed>, feeds: seq<ExportableFeed>, at: seq<nat>, last: ExportableFeed)
    requires InOrderAt(picked, feeds, at)
    ensures InOrderAt(picked, feeds + [last], at)
    ensures InOrderAt(picked + [last], feeds + [last], at + [|feeds|])
  {
  }

  /** What is attached and what becomes import rows keep the order of the export. */
  lemma {:induction false} FirstOccurrencesInOrder(exported: seq<ExportableFeed>) returns (at: seq<nat>)
    ensures InOrderAt(FirstOccurrences(exported), exported, at)
  {
    at := [];
    if exported != [] {
      var n := |exported| - 1;
      at := FirstOccurrencesInOrder(exported[..n]);
      PickedLonger(FirstOccurrences(exported[..n]), exported[..n], at, exported[n]);
      assert exported == exported[..n] + [exported[n]];
      if !Mentions(exported[..n], exported[n].url) {
        at := at + [n];
      }
    }
  }

  lemma {:induction false} KnownInOrder(feeds: seq<ExportableFeed>, known: map<string, nat>, wanted: bool)
    returns (at: seq<nat>)
    ensures InOrderAt(OnlyKnown(feeds, known, wanted), feeds, at)
  {
    at := [];
    if feeds != [] {
      var n := |feeds| - 1;
      at := KnownInOrder(feeds[..n], known, wanted);
      PickedLonger(OnlyKnown(feeds[..n], known, wanted), feeds[..n], at, feeds[n]);
      assert feeds == feeds[..n] + [feeds[n]];
      if (feeds[n].url in known) == wanted {
        at := at + [n];
      }
    }
  }
}
