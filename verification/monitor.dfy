/** The state of `ChangeMonitor` (lib/monitoringSystem.js): watchers, the history of
    changes and the notification subscribers, threaded through the operations as an
    immutable value. Callbacks are identified by a number; calling one is outside the
    model, and since the source catches whatever a callback throws, a call is all that
    is recorded. */
module Monitor {
  import opened Wrappers
  import opened JsText
  import opened JsValue
  import opened Changes
  import opened Notifications
  import opened Tally
  import opened Seqs
  import Sorting

  datatype Watcher = Watcher(competitorId: Value, fields: Value, callback: nat, createdAt: int)

  datatype State = State(watchers: seq<Watcher>, history: seq<Change>, subscribers: seq<Subscriber>)

  const Initial: State := State([], [], [])

  /** `this.watchers.get(id) || []`. The source keeps one list per id in a `Map`; the
      model keeps all watchers in registration order, and the list for an id is the
      watchers registered under it, in that order. */
  function WatchersOf(ws: seq<Watcher>, id: Value): (r: seq<Watcher>)
    ensures IsSubsequence(r, ws)
    ensures forall w :: w in r <==> w in ws && StrictEq(w.competitorId, id)
    ensures forall w :: multiset(r)[w] == if StrictEq(w.competitorId, id) then multiset(ws)[w] else 0
  {
    FilterSpec(ws, RegisteredUnder(id));
    Filter(ws, RegisteredUnder(id))
  }

  /** The test "registered under `id`". */
  function RegisteredUnder(id: Value): Watcher -> bool
  {
    (w: Watcher) => StrictEq(w.competitorId, id)
  }

  /** `addWatcher(competitorId, fields, callback)`. */
  function AddWatcher(m: State, competitorId: Value, fields: Value, callback: nat, now: int): (r: State)
    ensures r.history == m.history && r.subscribers == m.subscribers
  {
    m.(watchers := m.watchers + [Watcher(competitorId, fields, callback, now)])
  }

  lemma WatchersOfAppend(ws: seq<Watcher>, w: Watcher, id: Value)
    ensures WatchersOf(ws + [w], id) == WatchersOf(ws, id) + (if StrictEq(w.competitorId, id) then [w] else [])
  {
    FilterAppend(ws, w, RegisteredUnder(id));
  }

  /** A new watcher goes last in its id's list, and no other id's list changes. */
  lemma AddWatcherRegisters(m: State, competitorId: Value, fields: Value, callback: nat, now: int, id: Value)
    ensures WatchersOf(AddWatcher(m, competitorId, fields, callback, now).watchers, id)
            == WatchersOf(m.watchers, id) + (if StrictEq(competitorId, id) then [Watcher(competitorId, fields, callback, now)] else [])
  {
    WatchersOfAppend(m.watchers, Watcher(competitorId, fields, callback, now), id);
  }

  /** `watcher.fields.includes('*') || watcher.fields.includes(change.field)`. */
  function Wants(w: Watcher, c: Change): Result<bool>
  {
    var all :- Includes(w.fields, Str("*"));
    if all then Ok(true) else Includes(w.fields, c.FieldValue())
  }

  /** The callbacks fired, in order, and the exception that ended the loop early, if
      one did. */
  function Fire(ws: seq<Watcher>, c: Change): (r: (seq<nat>, Option<JsError>))
    ensures |r.0| <= |ws|
  {
    if |ws| == 0 then ([], None)
    else
      match Wants(ws[0], c)
      case Thrown(e) => ([], Some(e))
      case Ok(b) =>
        var rest := Fire(ws[1..], c);
        ((if b then [ws[0].callback] else []) + rest.0, rest.1)
  }

  /** What one `processChange` did: the new state, the callbacks fired, the
      notifications sent and the exception it rejected with, if any. */
  datatype Processed = Processed(state: State, fired: seq<nat>, delivered: seq<Delivery>, error: Option<JsError>)

  /** `processChange(change)`: the change is recorded first, then the watchers of its
      competitor run, then the subscribers are notified. A watcher whose field list has
      no `includes` makes the call reject before any notification. */
  function ProcessChange(m: State, c: Change): (p: Processed)
    ensures p.state.history == m.history + [c]
    ensures p.state.watchers == m.watchers && p.state.subscribers == m.subscribers
    ensures p.fired == Fire(WatchersOf(m.watchers, c.competitorId), c).0
    ensures p.error.None? <==> Fire(WatchersOf(m.watchers, c.competitorId), c).1.None? && SendNotification(m.subscribers, c).Ok?
    ensures p.error.None? ==> SendNotification(m.subscribers, c) == Ok(p.delivered)
    ensures p.error.Some? ==> p.delivered == []
  {
    var recorded := m.(history := m.history + [c]);
    var fire := Fire(WatchersOf(m.watchers, c.competitorId), c);
    if fire.1.Some? then Processed(recorded, fire.0, [], fire.1)
    else
      match SendNotification(m.subscribers, c)
      case Ok(ds) => Processed(recorded, fire.0, ds, None)
      case Thrown(e) => Processed(recorded, fire.0, [], Some(e))
  }

  /** A watcher whose field list can answer `includes`: an array or a string. */
  predicate CanAsk(w: Watcher)
  {
    w.fields.Arr? || w.fields.Str?
  }

  /** A watcher whose field list holds `'*'` or the change's field: as an element of
      an array, or as a substring of a string. */
  ghost predicate WantsChange(w: Watcher, c: Change)
  {
    || (w.fields.Arr? && (InValues(w.fields.items, Str("*")) || InValues(w.fields.items, c.FieldValue())))
    || (w.fields.Str? && (Contains(w.fields.s, "*") || Contains(w.fields.s, ToStr(c.FieldValue()))))
  }

  /** The test "wants the change". */
  ghost function Wanting(c: Change): Watcher -> bool
  {
    (w: Watcher) => WantsChange(w, c)
  }

  /** The callbacks of a list of watchers, in order. */
  function Callbacks(ws: seq<Watcher>): (r: seq<nat>)
    ensures |r| == |ws|
    ensures forall i :: 0 <= i < |ws| ==> r[i] == ws[i].callback
  {
    seq(|ws|, i requires 0 <= i < |ws| => ws[i].callback)
  }

  /** The `includes` test of one watcher throws exactly when its field list has no
      `includes`, and otherwise says whether the watcher wants the change. */
  lemma WantsSpec(w: Watcher, c: Change)
    ensures Wants(w, c).Thrown? <==> !CanAsk(w)
    ensures CanAsk(w) ==> Wants(w, c) == Ok(WantsChange(w, c))
  {
  }

  /** When every watcher's field list has `includes`, the loop fires, in order, the
      callbacks of exactly the watchers that want the change, and does not throw. */
  lemma {:induction false} FireSpec(ws: seq<Watcher>, c: Change)
    requires forall i :: 0 <= i < |ws| ==> CanAsk(ws[i])
    ensures Fire(ws, c) == (Callbacks(Filter(ws, Wanting(c))), None)
    decreases |ws|
  {
    if |ws| > 0 {
      assert forall i :: 1 <= i < |ws| ==> ws[i] == ws[1..][i - 1];
      FireSpec(ws[1..], c);
      FireStep(ws, c);
      WantingStep(ws, c);
    }
  }

  /** One watcher that can answer, in front of the rest. */
  lemma FireStep(ws: seq<Watcher>, c: Change)
    requires |ws| > 0 && CanAsk(ws[0])
    ensures Fire(ws, c) == (Callbacks(if Wanting(c)(ws[0]) then [ws[0]] else []) + Fire(ws[1..], c).0, Fire(ws[1..], c).1)
  {
    WantsSpec(ws[0], c);
    var wants := WantsChange(ws[0], c);
    assert Wanting(c)(ws[0]) == wants;
    assert Callbacks(if wants then [ws[0]] else []) == if wants then [ws[0].callback] else [];
    FireUnfold(ws, c, wants);
  }

  lemma FireUnfold(ws: seq<Watcher>, c: Change, b: bool)
    requires |ws| > 0 && Wants(ws[0], c) == Ok(b)
    ensures Fire(ws, c) == ((if b then [ws[0].callback] else []) + Fire(ws[1..], c).0, Fire(ws[1..], c).1)
  {
  }

  lemma WantingStep(ws: seq<Watcher>, c: Change)
    requires |ws| > 0
    ensures Callbacks(Filter(ws, Wanting(c)))
         == Callbacks(if Wanting(c)(ws[0]) then [ws[0]] else []) + Callbacks(Filter(ws[1..], Wanting(c)))
  {
    var head := if Wanting(c)(ws[0]) then [ws[0]] else [];
    assert Filter(ws, Wanting(c)) == head + Filter(ws[1..], Wanting(c));
    CallbacksConcat(head, Filter(ws[1..], Wanting(c)));
  }

  lemma CallbacksConcat(a: seq<Watcher>, b: seq<Watcher>)
    ensures Callbacks(a + b) == Callbacks(a) + Callbacks(b)
  {
  }

  /** A watcher whose field list has no `includes` ends the loop with a `TypeError`,
      after the callbacks of the wanting watchers before it have fired. */
  lemma {:induction false} FireStops(ws: seq<Watcher>, c: Change, k: int)
    requires 0 <= k < |ws| && !CanAsk(ws[k])
    requires forall i :: 0 <= i < k ==> CanAsk(ws[i])
    ensures Fire(ws, c) == (Callbacks(Filter(ws[..k], Wanting(c))), Some(TypeError))
    decreases |ws|
  {
    if k > 0 {
      assert forall i :: 1 <= i < |ws| ==> ws[i] == ws[1..][i - 1];
      FireStops(ws[1..], c, k - 1);
      FireStep(ws, c);
      assert ws[..k][0] == ws[0];
      assert ws[..k][1..] == ws[1..][..k - 1];
      WantingStep(ws[..k], c);
    } else {
      WantsSpec(ws[0], c);
      assert ws[..0] == [];
    }
  }

  /** With field lists that have `includes`, `processChange` records the change once,
      fires, in registration order, the callbacks of exactly the watchers registered
      under the change's competitor that want `'*'` or the changed field, and rejects
      exactly when notifying throws; otherwise it notifies the subscribers the change
      reaches, in order. */
  lemma ProcessChangeFires(m: State, c: Change)
    requires forall i :: 0 <= i < |m.watchers| ==> CanAsk(m.watchers[i])
    ensures var p := ProcessChange(m, c);
      && p.state.history == m.history + [c]
      && p.fired == Callbacks(Filter(WatchersOf(m.watchers, c.competitorId), Wanting(c)))
      && (forall k :: k in p.fired <==>
            exists w :: w in m.watchers && w.callback == k && StrictEq(w.competitorId, c.competitorId) && WantsChange(w, c))
      && (p.error.None? <==> SendNotification(m.subscribers, c).Ok?)
      && (p.error.None? ==> p.delivered == DeliveriesTo(Filter(m.subscribers, Reaches(c))))
  {
    var ws := WatchersOf(m.watchers, c.competitorId);
    forall i | 0 <= i < |ws|
      ensures CanAsk(ws[i])
    {
      assert ws[i] in ws;
    }
    FireSpec(ws, c);
    FiredMembers(m.watchers, c);
    SendNotificationDelivers(m.subscribers, c);
  }

  /** The callbacks of the wanting watchers under the change's competitor are those of
      the watchers registered under it that want the change. */
  lemma FiredMembers(watchers: seq<Watcher>, c: Change)
    ensures forall k :: k in Callbacks(Filter(WatchersOf(watchers, c.competitorId), Wanting(c))) <==>
      exists w :: w in watchers && w.callback == k && StrictEq(w.competitorId, c.competitorId) && WantsChange(w, c)
  {
    var ws := WatchersOf(watchers, c.competitorId);
    var wanted := Filter(ws, Wanting(c));
    FilterSpec(ws, Wanting(c));
    CallbacksMembers(wanted);
    assert forall w :: w in wanted <==> w in watchers && StrictEq(w.competitorId, c.competitorId) && WantsChange(w, c);
  }

  lemma CallbacksMembers(ws: seq<Watcher>)
    ensures forall k :: k in Callbacks(ws) <==> exists w :: w in ws && w.callback == k
  {
    forall k | k in Callbacks(ws)
      ensures exists w :: w in ws && w.callback == k
    {
      var i :| 0 <= i < |ws| && Callbacks(ws)[i] == k;
      assert ws[i] in ws;
    }
  }

  /** Processes the changes in order and stops at the first one that rejects. */
  function ProcessAll(m: State, cs: seq<Change>): (r: seq<Processed>)
    decreases |cs|
    ensures |r| <= |cs|
    ensures forall i :: 0 <= i < |r| - 1 ==> r[i].error.None?
    ensures |r| < |cs| ==> |r| > 0 && r[|r| - 1].error.Some?
  {
    if |cs| == 0 then []
    else
      var p := ProcessChange(m, cs[0]);
      if p.error.Some? then [p] else [p] + ProcessAll(p.state, cs[1..])
  }

  /** The state after the changes that were processed. */
  function Final(m: State, ps: seq<Processed>): State
  {
    if |ps| == 0 then m else ps[|ps| - 1].state
  }

  /** Processing only ever appends to the history: the processed changes, in order. */
  lemma {:induction false} ProcessAllHistory(m: State, cs: seq<Change>)
    ensures var ps := ProcessAll(m, cs);
      && Final(m, ps).history == m.history + cs[..|ps|]
      && Final(m, ps).watchers == m.watchers && Final(m, ps).subscribers == m.subscribers
    decreases |cs|
  {
    if |cs| > 0 {
      var p := ProcessChange(m, cs[0]);
      if p.error.None? {
        ProcessAllHistory(p.state, cs[1..]);
        ProcessAllStep(m, cs);
        FinalAppend(m, p, ProcessAll(p.state, cs[1..]), cs);
      } else {
        assert cs[..1] == [cs[0]];
      }
    }
  }

  lemma ProcessAllStep(m: State, cs: seq<Change>)
    requires |cs| > 0 && ProcessChange(m, cs[0]).error.None?
    ensures ProcessAll(m, cs) == [ProcessChange(m, cs[0])] + ProcessAll(ProcessChange(m, cs[0]).state, cs[1..])
  {
  }

  /** One processed change in front of the rest keeps the history an append-only log. */
  lemma FinalAppend(m: State, p: Processed, rest: seq<Processed>, cs: seq<Change>)
    requires |cs| > 0 && |rest| < |cs|
    requires p.state.history == m.history + [cs[0]]
    requires p.state.watchers == m.watchers && p.state.subscribers == m.subscribers
    requires Final(p.state, rest).history == p.state.history + cs[1..][..|rest|]
    requires Final(p.state, rest).watchers == m.watchers && Final(p.state, rest).subscribers == m.subscribers
    ensures Final(m, [p] + rest).history == m.history + cs[..|rest| + 1]
    ensures Final(m, [p] + rest).watchers == m.watchers && Final(m, [p] + rest).subscribers == m.subscribers
  {
    var ps := [p] + rest;
    assert Final(m, ps) == Final(p.state, rest) by {
      if |rest| > 0 {
        assert ps[|ps| - 1] == rest[|rest| - 1];
      }
    }
    assert cs[..|ps|] == [cs[0]] + cs[1..][..|rest|];
    assert (m.history + [cs[0]]) + cs[1..][..|rest|] == m.history + ([cs[0]] + cs[1..][..|rest|]);
  }

  /** `checkChanges(oldData, newData)`: detects the changes and processes them one
      after the other; it resolves to the changes once all were processed, or rejects
      with the exception of the change whose processing failed. */
  function CheckChanges(m: State, oldData: seq<Record>, newData: seq<Record>, now: int)
    : (r: (seq<Processed>, Result<seq<Change>>))
    ensures r.1.Ok? ==> r.1.value == DetectChanges(oldData, newData, now)
    ensures r.1.Ok? ==> |r.0| == |DetectChanges(oldData, newData, now)| && forall i :: 0 <= i < |r.0| ==> r.0[i].error.None?
    ensures r.1.Thrown? ==> |r.0| > 0 && r.0[|r.0| - 1].error == Some(r.1.error)
  {
    var cs := DetectChanges(oldData, newData, now);
    Outcome(ProcessAll(m, cs), cs)
  }

  /** How the processing of `cs` ends: with the changes when none failed, or with the
      exception of the one that failed, which is the last processed. */
  function Outcome(ps: seq<Processed>, cs: seq<Change>): (r: (seq<Processed>, Result<seq<Change>>))
    requires |ps| <= |cs|
    requires forall i :: 0 <= i < |ps| - 1 ==> ps[i].error.None?
    requires |ps| < |cs| ==> |ps| > 0 && ps[|ps| - 1].error.Some?
    ensures r.0 == ps
    ensures r.1.Ok? ==> r.1.value == cs
    ensures r.1.Ok? ==> |ps| == |cs| && forall i :: 0 <= i < |ps| ==> ps[i].error.None?
    ensures r.1.Thrown? ==> |ps| > 0 && ps[|ps| - 1].error == Some(r.1.error)
  {
    if |ps| > 0 && ps[|ps| - 1].error.Some? then (ps, Thrown(ps[|ps| - 1].error.value))
    else (ps, Ok(cs))
  }

  // ---------------------------------------------------------------------------
  // History queries

  /** `history.filter(change => change.competitorId === id)`. */
  function OfCompetitor(h: seq<Change>, id: Value): (r: seq<Change>)
    ensures IsSubsequence(r, h)
    ensures forall c :: c in r <==> c in h && StrictEq(c.competitorId, id)
    ensures forall c :: multiset(r)[c] == if StrictEq(c.competitorId, id) then multiset(h)[c] else 0
  {
    FilterSpec(h, AboutCompetitor(id));
    Filter(h, AboutCompetitor(id))
  }

  /** The test `change.competitorId === id`. */
  function AboutCompetitor(id: Value): Change -> bool
  {
    (c: Change) => StrictEq(c.competitorId, id)
  }

  /** The end index `slice(0, limit)` uses on a list of length `len`: a negative limit
      counts from the end. */
  function SliceEnd(len: nat, limit: int): (r: nat)
    ensures r <= len
    ensures limit >= 0 ==> r == if limit < len then limit else len
    ensures limit < 0 ==> r == if len + limit > 0 then len + limit else 0
  {
    if limit >= 0 then (if limit < len then limit else len)
    else if len + limit > 0 then len + limit else 0
  }

  /** The sort key of `(a, b) => new Date(b.timestamp) - new Date(a.timestamp)`. */
  function Timestamp(c: Change): int
  {
    c.timestamp
  }

  /** Newest first; changes with the same timestamp keep their order. */
  function ByTimeDesc(h: seq<Change>): (r: seq<Change>)
    ensures multiset(r) == multiset(h) && |r| == |h|
    ensures Sorting.NonIncreasing(r, Timestamp)
  {
    Sorting.SortDesc(h, Timestamp)
  }

  /** `sort(...).slice(0, limit)`. */
  function NewestFirst(h: seq<Change>, limit: int): seq<Change>
  {
    var sorted := ByTimeDesc(h);
    sorted[..SliceEnd(|sorted|, limit)]
  }

  /** `limit` changes, or all of them when there are fewer (a negative limit drops that
      many from the end), newest first; every change left out is no newer than any
      change returned. */
  lemma NewestFirstSpec(h: seq<Change>, limit: int)
    ensures var r := NewestFirst(h, limit);
      && |r| == SliceEnd(|h|, limit)
      && Sorting.NonIncreasing(r, Timestamp)
      && multiset(r) <= multiset(h)
      && forall c: Change, i: int :: c in multiset(h) - multiset(r) && 0 <= i < |r| ==> c.timestamp <= r[i].timestamp
  {
    var sorted := ByTimeDesc(h);
    var n := SliceEnd(|sorted|, limit);
    assert sorted == sorted[..n] + sorted[n..];
    assert multiset(h) - multiset(sorted[..n]) == multiset(sorted[n..]);
    PrefixIsNewest(sorted, n);
  }

  /** In a newest-first list, nothing after position `n` is newer than anything
      before it. */
  lemma PrefixIsNewest(sorted: seq<Change>, n: nat)
    requires n <= |sorted| && Sorting.NonIncreasing(sorted, Timestamp)
    ensures forall c: Change, i: int :: c in multiset(sorted[n..]) && 0 <= i < n ==> c.timestamp <= sorted[..n][i].timestamp
  {
    forall c: Change, i: int | c in multiset(sorted[n..]) && 0 <= i < n
      ensures c.timestamp <= sorted[..n][i].timestamp
    {
      var j :| 0 <= j < |sorted[n..]| && sorted[n..][j] == c;
      assert sorted[n + j] == c;
      assert Timestamp(sorted[i]) >= Timestamp(sorted[n + j]);
    }
  }

  /** `getChangeHistory(competitorId, limit)`. With a falsy id the stored history itself
      is sorted, newest first, and the sorted order is kept. */
  function GetChangeHistory(m: State, competitorId: Value, limit: int): (r: (State, seq<Change>))
    ensures r.0.watchers == m.watchers && r.0.subscribers == m.subscribers
    ensures multiset(r.0.history) == multiset(m.history)
  {
    if Truthy(competitorId) then (m, NewestFirst(OfCompetitor(m.history, competitorId), limit))
    else (m.(history := ByTimeDesc(m.history)), NewestFirst(m.history, limit))
  }

  /** The changes `getChangeHistory` chooses from: those of the named competitor, or
      all of them. */
  function Candidates(m: State, competitorId: Value): seq<Change>
  {
    if Truthy(competitorId) then OfCompetitor(m.history, competitorId) else m.history
  }

  /** `limit` changes (or all, when fewer match), newest first, all of the requested
      competitor when one is named, all taken from the history, and every matching
      change left out is no newer than any change returned. */
  lemma GetChangeHistorySpec(m: State, competitorId: Value, limit: int)
    ensures var r := GetChangeHistory(m, competitorId, limit).1;
      var h := Candidates(m, competitorId);
      && |r| == SliceEnd(|h|, limit)
      && Sorting.NonIncreasing(r, Timestamp)
      && multiset(r) <= multiset(m.history)
      && (Truthy(competitorId) ==> forall c :: c in r ==> StrictEq(c.competitorId, competitorId))
      && forall c: Change, i: int :: c in multiset(h) - multiset(r) && 0 <= i < |r| ==> c.timestamp <= r[i].timestamp
  {
    var h := Candidates(m, competitorId);
    NewestFirstSpec(h, limit);
    var r := NewestFirst(h, limit);
    assert multiset(h) <= multiset(m.history);
    if Truthy(competitorId) {
      forall c | c in r
        ensures StrictEq(c.competitorId, competitorId)
      {
        assert c in multiset(r);
      }
    }
  }

  // ---------------------------------------------------------------------------
  // Analytics

  /** The changes strictly newer than `cutoff`, in order. */
  function Since(h: seq<Change>, cutoff: int): (r: seq<Change>)
    ensures IsSubsequence(r, h)
    ensures forall c :: c in r <==> c in h && c.timestamp > cutoff
    ensures forall c :: multiset(r)[c] == if c.timestamp > cutoff then multiset(h)[c] else 0
  {
    FilterSpec(h, NewerThan(cutoff));
    Filter(h, NewerThan(cutoff))
  }

  /** The test `new Date(change.timestamp) > cutoffDate`. */
  function NewerThan(cutoff: int): Change -> bool
  {
    (c: Change) => c.timestamp > cutoff
  }

  function TypeNames(cs: seq<Change>): (r: seq<string>)
    ensures |r| == |cs|
  {
    seq(|cs|, i requires 0 <= i < |cs| => cs[i].TypeName())
  }

  function SeverityNames(cs: seq<Change>): (r: seq<string>)
    ensures |r| == |cs|
  {
    seq(|cs|, i requires 0 <= i < |cs| => cs[i].SeverityName())
  }

  /** `change.competitorName` used as a property key, that is converted by `String`. */
  function CompetitorKeys(cs: seq<Change>): (r: seq<string>)
    ensures |r| == |cs|
  {
    seq(|cs|, i requires 0 <= i < |cs| => ToStr(cs[i].competitorName))
  }

  datatype Analytics = Analytics(
    totalChanges: nat,
    byType: Histogram,
    bySeverity: Histogram,
    byCompetitor: Histogram,
    mostActiveCompetitors: seq<(string, nat)>,
    trendingFields: seq<string>)

  /** The first `n` elements, or all of them. */
  function Take<T>(s: seq<T>, n: nat): (r: seq<T>)
    ensures |r| <= n && r <= s
    ensures |s| >= n ==> |r| == n
  {
    if |s| <= n then s else s[..n]
  }

  /** The sort key of `([, a], [, b]) => b - a`. */
  function EntryCount(e: (string, nat)): int
  {
    e.1
  }

  /** `Object.entries(counts).sort(([, a], [, b]) => b - a).slice(0, n)`. */
  function Top(counts: Histogram, n: nat): seq<(string, nat)>
  {
    Take(Sorting.SortDesc(Entries(counts), EntryCount), n)
  }

  lemma TopIsPrefix(counts: Histogram, n: nat)
    ensures var sorted := Sorting.SortDesc(Entries(counts), EntryCount);
      && Top(counts, n) == sorted[..|Top(counts, n)|]
      && multiset(sorted) == multiset(counts)
  {
  }

  lemma TopOrdered(counts: Histogram, n: nat)
    ensures forall i, j :: 0 <= i < j < |Top(counts, n)| ==> Top(counts, n)[i].1 >= Top(counts, n)[j].1
  {
    var sorted := Sorting.SortDesc(Entries(counts), EntryCount);
    var top := Top(counts, n);
    TopIsPrefix(counts, n);
    forall i, j | 0 <= i < j < |top|
      ensures top[i].1 >= top[j].1
    {
      assert EntryCount(sorted[i]) >= EntryCount(sorted[j]);
    }
  }

  lemma TopMembers(counts: Histogram, n: nat)
    ensures forall e :: e in Top(counts, n) ==> e in counts
  {
    var sorted := Sorting.SortDesc(Entries(counts), EntryCount);
    var top := Top(counts, n);
    TopIsPrefix(counts, n);
    forall e | e in top
      ensures e in counts
    {
      assert e in multiset(sorted);
    }
  }

  lemma TopDominates(counts: Histogram, n: nat)
    ensures forall e, i :: e in counts && e !in Top(counts, n) && 0 <= i < |Top(counts, n)| ==> e.1 <= Top(counts, n)[i].1
  {
    var sorted := Sorting.SortDesc(Entries(counts), EntryCount);
    var top := Top(counts, n);
    TopIsPrefix(counts, n);
    forall e, i | e in counts && e !in top && 0 <= i < |top|
      ensures e.1 <= top[i].1
    {
      assert e in multiset(sorted);
      var j :| 0 <= j < |sorted| && sorted[j] == e;
      assert EntryCount(sorted[i]) >= EntryCount(sorted[j]);
    }
  }

  /** The top entries are entries of the histogram, by non-increasing count, and every
      entry left out counts no more than any entry kept. */
  lemma TopSpec(counts: Histogram, n: nat)
    ensures |Top(counts, n)| == if |counts| < n then |counts| else n
    ensures forall i, j :: 0 <= i < j < |Top(counts, n)| ==> Top(counts, n)[i].1 >= Top(counts, n)[j].1
    ensures forall e :: e in Top(counts, n) ==> e in counts
    ensures forall e, i :: e in counts && e !in Top(counts, n) && 0 <= i < |Top(counts, n)| ==> e.1 <= Top(counts, n)[i].1
  {
    TopIsPrefix(counts, n);
    TopOrdered(counts, n);
    TopMembers(counts, n);
    TopDominates(counts, n);
  }

  /** `getChangeAnalytics(period)`: the changes newer than the cutoff counted by type,
      by severity and by competitor name, and the five competitors with the most
      changes. The cutoff is the clock reading `period` calendar days back in local
      time, which the caller supplies. */
  function GetChangeAnalytics(m: State, cutoff: int): Analytics
  {
    AnalyticsOf(Since(m.history, cutoff))
  }

  /** The analytics of the given recent changes. */
  function AnalyticsOf(recent: seq<Change>): Analytics
  {
    var byCompetitor := Tally.Tally(CompetitorKeys(recent));
    Analytics(|recent|, Tally.Tally(TypeNames(recent)), Tally.Tally(SeverityNames(recent)), byCompetitor, Top(byCompetitor, 5), [])
  }

  /** What the analytics of the recent changes promise: the total is the number of
      recent changes and the sum of every histogram, and each histogram counts exactly
      the recent changes of each type, severity and competitor name. The most active
      competitors are the five (or all, when fewer) entries with the highest counts,
      by non-increasing count: every competitor left out has no more changes than any
      listed one. */
  ghost predicate Summarises(a: Analytics, recent: seq<Change>)
  {
    CountsAgree(a, recent) && RanksMostActive(a) && a.trendingFields == []
  }

  ghost predicate CountsAgree(a: Analytics, recent: seq<Change>)
  {
    && a.totalChanges == |recent| == Sum(a.byType) == Sum(a.bySeverity) == Sum(a.byCompetitor)
    && (forall t :: Count(a.byType, t) == multiset(TypeNames(recent))[t])
    && (forall t :: Count(a.bySeverity, t) == multiset(SeverityNames(recent))[t])
    && (forall t :: Count(a.byCompetitor, t) == multiset(CompetitorKeys(recent))[t])
  }

  ghost predicate RanksMostActive(a: Analytics)
  {
    && |a.mostActiveCompetitors| == (if |a.byCompetitor| < 5 then |a.byCompetitor| else 5)
    && (forall i, j :: 0 <= i < j < |a.mostActiveCompetitors| ==> a.mostActiveCompetitors[i].1 >= a.mostActiveCompetitors[j].1)
    && (forall e :: e in a.mostActiveCompetitors ==> e in a.byCompetitor)
    && (forall e, i :: e in a.byCompetitor && e !in a.mostActiveCompetitors && 0 <= i < |a.mostActiveCompetitors|
                      ==> e.1 <= a.mostActiveCompetitors[i].1)
  }

  /** `getChangeAnalytics` summarises exactly the changes newer than the cutoff. */
  lemma AnalyticsSpec(m: State, cutoff: int)
    ensures Summarises(GetChangeAnalytics(m, cutoff), Since(m.history, cutoff))
  {
    AnalyticsOfRecent(Since(m.history, cutoff));
  }

  lemma AnalyticsOfRecent(recent: seq<Change>)
    ensures Summarises(AnalyticsOf(recent), recent)
  {
    AnalyticsCounts(recent);
    AnalyticsRanks(recent);
  }

  lemma AnalyticsCounts(recent: seq<Change>)
    ensures CountsAgree(AnalyticsOf(recent), recent)
  {
  }

  lemma AnalyticsRanks(recent: seq<Change>)
    ensures RanksMostActive(AnalyticsOf(recent))
  {
    var byCompetitor := Tally.Tally(CompetitorKeys(recent));
    TopSpec(byCompetitor, 5);
    assert AnalyticsOf(recent).byCompetitor == byCompetitor;
    assert AnalyticsOf(recent).mostActiveCompetitors == Top(byCompetitor, 5);
  }
}
