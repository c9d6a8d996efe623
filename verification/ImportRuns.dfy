/** Import rows while resolvers, retries and removals interleave.

A resolver reads a pending row, fetches for as long as it takes, and then claims the row and attaches
the feed in one transaction, or, should the fetch or the transaction fail, marks the row failed.
*/
module ImportRuns {

  type ImportId = nat

  datatype RowState = PendingRow | FailedRow

  datatype ImportRow = ImportRow(newsletterId: nat, state: RowState)

  type ImportRows = map<ImportId, ImportRow>

  /** A feed in a newsletter. */
  datatype Attachment = Attachment(newsletterId: nat, feedId: nat)

  /** MarkFeedImportFailed, which does not ask what state the row is in. */
  function MarkedFailed(rows: ImportRows, id: ImportId): ImportRows {
    if id in rows then rows[id := rows[id].(state := FailedRow)] else rows
  }

  /** RetryFeedImport, which does. */
  function Retried(rows: ImportRows, id: ImportId): ImportRows {
    if id in rows && rows[id].state.FailedRow? then rows[id := rows[id].(state := PendingRow)] else rows
  }

  /** AddImportedNewsletterFeed inserts nothing when the newsletter has the feed already. */
  function Attached(feeds: seq<Attachment>, a: Attachment): seq<Attachment> {
    if a in feeds then feeds else feeds + [a]
  }

  class ImportTable {
    var rows: ImportRows
    var feeds: seq<Attachment>

    constructor ()
      ensures rows == map[] && feeds == []
    {
      rows, feeds := map[], [];
    }

    method MarkFeedImportFailed(id: ImportId)
      modifies this`rows
      ensures rows == MarkedFailed(old(rows), id)
    {
      if id in rows {
        rows := rows[id := rows[id].(state := FailedRow)];
      }
    }

    method RetryFeedImport(id: ImportId) returns (retried: bool)
      modifies this`rows
      ensures retried <==> id in old(rows) && old(rows)[id].state.FailedRow?
      ensures rows == Retried(old(rows), id)
    {
      if id !in rows || !rows[id].state.FailedRow? {
        return false;
      }
      rows := rows[id := rows[id].(state := PendingRow)];
      return true;
    }

    method DeleteFeedImport(id: ImportId) returns (deleted: bool)
      modifies this`rows
      ensures deleted <==> id in old(rows)
      ensures rows == old(rows) - {id}
    {
      deleted := id in rows;
      rows := rows - {id};
    }

    /** The row is claimed first: whoever removed it while the feed was being fetched wins. A failure
        inside the transaction leaves both tables as they were. */
    method AddImportedFeed(id: ImportId, newsletterId: nat, feedId: nat, commits: bool) returns (ok: bool)
      modifies this
      ensures ok <==> id !in old(rows) || commits
      ensures
        var claimed := id in old(rows) && commits;
        && rows == (if claimed then old(rows) - {id} else old(rows))
        && feeds == (if claimed then Attached(old(feeds), Attachment(newsletterId, feedId)) else old(feeds))
    {
      if id !in rows {
        return true;
      }
      if !commits {
        return false;
      }
      rows := rows - {id};
      if Attachment(newsletterId, feedId) !in feeds {
        feeds := feeds + [Attachment(newsletterId, feedId)];
      }
      return true;
    }
  }

  /** A resolver and the row it read. */
  datatype Resolver = Resolver(id: ImportId, newsletterId: nat)

  datatype Exit = Resolved | Removed

  datatype State = State(
    rows: ImportRows,
    feeds: seq<Attachment>,
    resolvers: map<nat, Resolver>,
    created: set<ImportId>,
    exits: seq<(ImportId, Exit)>,
    attachedFor: seq<ImportId>)

  datatype Event =
    | Create(id: ImportId, newsletterId: nat)
    | Begin(r: nat, id: ImportId)
    | MarkFailed(r: nat)
    | Claim(r: nat, feedId: nat, commits: bool)
    | Retry(id: ImportId)
    | Remove(id: ImportId)
    | Die(r: nat)
    | AddFeed(a: Attachment)
    | DeleteFeed(i: nat)
    | MoveFeed(i: nat, target: nat)

  predicate Enabled(s: State, e: Event) {
    match e
    case Create(id, _) => id !in s.created
    case Begin(r, _) => r !in s.resolvers
    case MarkFailed(r) => r in s.resolvers
    case Claim(r, _, _) => r in s.resolvers
    case Die(r) => r in s.resolvers
    case DeleteFeed(i) => i < |s.feeds|
    case MoveFeed(i, _) => i < |s.feeds|
    case _ => true
  }

  function Step(s: State, e: Event): State
    requires Enabled(s, e)
  {
    match e
    case Create(id, newsletterId) =>
      s.(rows := s.rows[id := ImportRow(newsletterId, PendingRow)], created := s.created + {id})
    case Begin(r, id) =>
      if id in s.rows && s.rows[id].state.PendingRow?
      then s.(resolvers := s.resolvers[r := Resolver(id, s.rows[id].newsletterId)]) else s
    case MarkFailed(r) =>
      s.(rows := MarkedFailed(s.rows, s.resolvers[r].id), resolvers := s.resolvers - {r})
    case Claim(r, feedId, commits) =>
      var v := s.resolvers[r];
      var done := s.(resolvers := s.resolvers - {r});
      if v.id !in s.rows then done
      else if !commits then s
      else
        var a := Attachment(v.newsletterId, feedId);
        done.(rows := s.rows - {v.id},
              feeds := Attached(s.feeds, a),
              exits := s.exits + [(v.id, Resolved)],
              attachedFor := if a in s.feeds then s.attachedFor else s.attachedFor + [v.id])
    case Retry(id) => s.(rows := Retried(s.rows, id))
    case Remove(id) =>
      if id in s.rows then s.(rows := s.rows - {id}, exits := s.exits + [(id, Removed)]) else s
    case Die(r) => s.(resolvers := s.resolvers - {r})
    // The owner's own requests: only a move asks whether the newsletter has the feed.
    case AddFeed(a) => s.(feeds := s.feeds + [a])
    case DeleteFeed(i) => s.(feeds := s.feeds[..i] + s.feeds[i + 1..])
    case MoveFeed(i, target) =>
      var moved := Attachment(target, s.feeds[i].feedId);
      if moved in s.feeds then s else s.(feeds := s.feeds[i := moved])
  }

  predicate Exited(exits: seq<(ImportId, Exit)>, id: ImportId) {
    exists i :: 0 <= i < |exits| && exits[i].0 == id
  }

  ghost predicate RowsSound(s: State) {
    && s.rows.Keys <= s.created
    && (forall i :: 0 <= i < |s.exits| ==> s.exits[i].0 in s.created && s.exits[i].0 !in s.rows)
    && (forall i, j :: 0 <= i < j < |s.exits| ==> s.exits[i].0 != s.exits[j].0)
    && (forall id :: id in s.created ==> id in s.rows || Exited(s.exits, id))
  }

  ghost predicate AttachmentsSound(s: State) {
    && (forall i :: 0 <= i < |s.attachedFor| ==> (s.attachedFor[i], Resolved) in s.exits)
    && (forall i, j :: 0 <= i < j < |s.attachedFor| ==> s.attachedFor[i] != s.attachedFor[j])
  }

  lemma ExitedAppend(exits: seq<(ImportId, Exit)>, x: (ImportId, Exit))
    ensures forall id :: Exited(exits + [x], id) <==> Exited(exits, id) || id == x.0
  {
    forall id ensures Exited(exits + [x], id) <==> Exited(exits, id) || id == x.0 {
      if Exited(exits, id) {
        var i :| 0 <= i < |exits| && exits[i].0 == id;
        assert (exits + [x])[i].0 == id;
      }
      if id == x.0 {
        assert (exits + [x])[|exits|].0 == id;
      }
    }
  }

  lemma StepKeepsRows(s: State, e: Event)
    requires Enabled(s, e) && RowsSound(s)
    ensures RowsSound(Step(s, e))
  {
    hide Exited;
    if e.Claim? {
      ExitedAppend(s.exits, (s.resolvers[e.r].id, Resolved));
    }
    if e.Remove? {
      ExitedAppend(s.exits, (e.id, Removed));
    }
  }

  lemma StepKeepsAttachments(s: State, e: Event)
    requires Enabled(s, e) && RowsSound(s) && AttachmentsSound(s)
    ensures AttachmentsSound(Step(s, e))
  {
  }

  ghost predicate Runnable(s: State, run: seq<Event>)
    decreases |run|
  {
    run == [] || (Enabled(s, run[0]) && Runnable(Step(s, run[0]), run[1..]))
  }

  ghost function Run(s: State, run: seq<Event>): State
    requires Runnable(s, run)
    decreases |run|
  {
    if run == [] then s else Run(Step(s, run[0]), run[1..])
  }

  function Start(feeds: seq<Attachment>): State {
    State(map[], feeds, map[], {}, [], [])
  }

  lemma {:induction false} RunsStaySound(s: State, run: seq<Event>)
    requires Runnable(s, run) && RowsSound(s) && AttachmentsSound(s)
    ensures RowsSound(Run(s, run)) && AttachmentsSound(Run(s, run))
    decreases |run|
  {
    hide Step, Enabled, RowsSound, AttachmentsSound;
    if run != [] {
      StepKeepsRows(s, run[0]);
      StepKeepsAttachments(s, run[0]);
      RunsStaySound(Step(s, run[0]), run[1..]);
    }
  }

  /** A row leaves the table at most once, attaches its feed at most once, attaches nothing if it was
      removed, and otherwise is still there, pending or failed. */
  lemma ImportsEndOnce(feeds: seq<Attachment>, run: seq<Event>)
    requires Runnable(Start(feeds), run)
    ensures
      var s := Run(Start(feeds), run);
      && (forall i, j :: 0 <= i < j < |s.exits| ==> s.exits[i].0 != s.exits[j].0)
      && (forall i, j :: 0 <= i < j < |s.attachedFor| ==> s.attachedFor[i] != s.attachedFor[j])
      && (forall id :: (id, Removed) in s.exits ==> id !in s.attachedFor)
      && (forall id :: id in s.created ==> (id in s.rows <==> !Exited(s.exits, id)))
  {
    hide Runnable, Run;
    RunsStaySound(Start(feeds), run);
  }

  /** No newsletter has a feed twice. */
  predicate NoDuplicates(feeds: seq<Attachment>) {
    forall i, j :: 0 <= i < j < |feeds| ==> feeds[i] != feeds[j]
  }

  ghost predicate NoFeedTwice(s: State) {
    NoDuplicates(s.feeds)
  }

  /** The owner adds a feed that the newsletter does not have. */
  ghost predicate AddsNew(s: State, e: Event) {
    e.AddFeed? ==> e.a !in s.feeds
  }

  lemma StepKeepsFeedsExactlyWhen(s: State, e: Event)
    requires Enabled(s, e) && NoFeedTwice(s)
    ensures NoFeedTwice(Step(s, e)) <==> AddsNew(s, e)
  {
    var s' := Step(s, e);
    if e.AddFeed? && e.a in s.feeds {
      var i :| 0 <= i < |s.feeds| && s.feeds[i] == e.a;
      assert s'.feeds[i] == s'.feeds[|s.feeds|];
    }
  }

  ghost predicate Each(s: State, run: seq<Event>, allowed: (State, Event) -> bool)
    requires Runnable(s, run)
    decreases |run|
  {
    run == [] || (allowed(s, run[0]) && Each(Step(s, run[0]), run[1..], allowed))
  }

  ghost predicate Throughout(s: State, run: seq<Event>, good: State -> bool)
    requires Runnable(s, run)
    decreases |run|
  {
    good(s) && (run == [] || Throughout(Step(s, run[0]), run[1..], good))
  }

  /** Imports, moves and removals never give a newsletter a feed it has; the owner's own adding does, and
      it alone: over every run there is no feed twice all along exactly when each added feed is new. */
  lemma {:induction false} NewslettersKeepOneOfEachFeed(s: State, run: seq<Event>)
    requires Runnable(s, run) && NoFeedTwice(s)
    ensures Throughout(s, run, NoFeedTwice) <==> Each(s, run, AddsNew)
    decreases |run|
  {
    hide Step, Enabled, NoFeedTwice, AddsNew;
    if run != [] {
      StepKeepsFeedsExactlyWhen(s, run[0]);
      if AddsNew(s, run[0]) {
        NewslettersKeepOneOfEachFeed(Step(s, run[0]), run[1..]);
      }
    }
  }

  /** A move that is not refused takes a feed from one newsletter to the other, and a refused one leaves it where it
      was, because the target has it; a removal takes that feed from that newsletter alone. */
  lemma MovesAndRemovals(s: State, i: nat, target: nat)
    requires NoFeedTwice(s) && i < |s.feeds|
    ensures
      var a := s.feeds[i];
      var moved := Attachment(target, a.feedId);
      var after := Step(s, MoveFeed(i, target)).feeds;
      && moved in after
      && (a in after <==> moved in s.feeds)
      && forall b :: b != a && b != moved ==> (b in after <==> b in s.feeds)
    ensures
      forall b :: b in Step(s, DeleteFeed(i)).feeds <==> b in s.feeds && b != s.feeds[i]
  {
    var moved := Attachment(target, s.feeds[i].feedId);
    var after := Step(s, MoveFeed(i, target)).feeds;
    assert moved !in s.feeds ==> after[i] == moved;
    forall b | b in s.feeds && b != s.feeds[i] ensures b in after && b in Step(s, DeleteFeed(i)).feeds {
      var k :| 0 <= k < |s.feeds| && s.feeds[k] == b;
      assert moved !in s.feeds ==> after[k] == b;
      assert Step(s, DeleteFeed(i)).feeds[if k < i then k else k - 1] == b;
    }
  }

  function Adds(run: seq<Event>): nat {
    if run == [] then 0 else (if run[0].AddFeed? then 1 else 0) + Adds(run[1..])
  }

  function Deletes(run: seq<Event>): nat {
    if run == [] then 0 else (if run[0].DeleteFeed? then 1 else 0) + Deletes(run[1..])
  }

  /** Over every run the feeds are those there were, those the owner added and one for each row that attached,
      without those that were removed. */
  lemma {:induction false} FeedsAreAccountedFor(s: State, run: seq<Event>)
    requires Runnable(s, run)
    ensures |Run(s, run).feeds| + Deletes(run) + |s.attachedFor| == |s.feeds| + Adds(run) + |Run(s, run).attachedFor|
    decreases |run|
  {
    if run != [] {
      FeedsAreAccountedFor(Step(s, run[0]), run[1..]);
    }
  }

  // ----------------------------------------------------------------- states of a row

  /** A resolver knows the newsletter of the row it read. */
  ghost predicate ResolversSound(s: State) {
    && s.rows.Keys <= s.created
    && (forall r :: r in s.resolvers ==> s.resolvers[r].id in s.created)
    && (forall r :: r in s.resolvers && s.resolvers[r].id in s.rows ==>
          s.resolvers[r].newsletterId == s.rows[s.resolvers[r].id].newsletterId)
  }

  lemma {:induction false} RunsKeepResolvers(s: State, run: seq<Event>)
    requires Runnable(s, run) && ResolversSound(s)
    ensures ResolversSound(Run(s, run))
    decreases |run|
  {
    if run != [] {
      RunsKeepResolvers(Step(s, run[0]), run[1..]);
    }
  }

  /** A resolved row leaves the table, and its feed is then in the newsletter the row was made for. */
  lemma ClaimedRowsAttach(feeds: seq<Attachment>, run: seq<Event>, r: nat, feedId: nat)
    requires Runnable(Start(feeds), run) && r in Run(Start(feeds), run).resolvers
    requires
      var s := Run(Start(feeds), run);
      s.resolvers[r].id in s.rows
    ensures
      var s := Run(Start(feeds), run);
      var id := s.resolvers[r].id;
      var claimed := Step(s, Claim(r, feedId, true));
      && Attachment(s.rows[id].newsletterId, feedId) in claimed.feeds
      && s.feeds <= claimed.feeds && |claimed.feeds| <= |s.feeds| + 1
      && claimed.rows == s.rows - {id}
  {
    hide Runnable, Run;
    RunsKeepResolvers(Start(feeds), run);
  }

  /** A failed resolution shows on its row and no other. Only Retry makes the row pending, and then it can be
      resolved again, for the newsletter it was made for. */
  lemma FailureAndRetry(s: State, r: nat, other: nat)
    requires r in s.resolvers && s.resolvers[r].id in s.rows && other !in s.resolvers
    ensures
      var id := s.resolvers[r].id;
      var failed := Step(s, MarkFailed(r));
      && id in failed.rows && failed.rows[id].state.FailedRow?
      && (forall i :: i in s.rows && i != id ==> i in failed.rows && failed.rows[i] == s.rows[i])
      && Step(failed, Begin(other, id)) == failed
      && var retried := Step(failed, Retry(id));
      && Step(retried, Begin(other, id)).resolvers
         == retried.resolvers[other := Resolver(id, s.rows[id].newsletterId)]
  {
  }

  ghost predicate NotRetried(id: ImportId, e: Event) {
    e != Retry(id)
  }

  /** A failed row nobody is resolving waits for its owner: until a Retry no resolver takes it up, and it stays
      as it is unless it is removed. */
  lemma {:induction false} FailedRowsWait(s: State, run: seq<Event>, id: ImportId)
    requires Runnable(s, run) && id in s.created && forall i :: 0 <= i < |run| ==> NotRetried(id, run[i])
    requires id in s.rows ==> s.rows[id].state.FailedRow?
    requires id !in s.rows ==> (id, Removed) in s.exits
    requires forall r :: r in s.resolvers ==> s.resolvers[r].id != id
    ensures
      var end := Run(s, run);
      && (id in end.rows ==> end.rows[id].state.FailedRow?)
      && (id !in end.rows ==> (id, Removed) in end.exits)
      && (forall r :: r in end.resolvers ==> end.resolvers[r].id != id)
    decreases |run|
  {
    if run != [] {
      var s' := Step(s, run[0]);
      if (id, Removed) in s.exits {
        assert (id, Removed) in s'.exits;
      }
      if run[0] == Remove(id) && id in s.rows {
        assert s'.exits[|s.exits|] == (id, Removed);
      }
      FailedRowsWait(s', run[1..], id);
    }
  }
}
