/** Who hears about a change (`NotificationManager` in lib/monitoringSystem.js):
    subscribers name a channel, an address and optional filters; a change goes to every
    subscriber whose filters it passes and whose channel is one of the three
    notifiers. */
module Notifications {
  import opened Wrappers
  import opened JsText
  import opened JsValue
  import opened Changes
  import opened Seqs

  datatype Subscriber = Subscriber(channel: Value, address: Value, filters: Value, createdAt: int)

  /** The `{}` that stands in for absent filters. Nothing compares it by identity, so
      its reference is immaterial. */
  const NoFilters: Value := Obj(0, EmptyRecord)

  /** The keys of the notifier table: `email`, `telegram` and `webhook`. */
  const ChannelNames: seq<string> := ["email", "telegram", "webhook"]

  /** `this.channels[channel]` finds a notifier: the channel, as a property key, is one
      of the table's own keys. */
  predicate KnownChannel(channel: Value)
  {
    ToStr(channel) in ChannelNames
  }

  /** One `notifier.send(address, change)` call. */
  datatype Delivery = Delivery(channel: string, address: Value)

  /** `addSubscriber(channel, address, filters = {})`: appended last, with the empty
      filter when none was given. */
  function AddSubscriber(subs: seq<Subscriber>, channel: Value, address: Value, filters: Value, now: int)
    : (r: seq<Subscriber>)
    ensures |r| == |subs| + 1 && r[..|subs|] == subs
    ensures r[|subs|].channel == channel && r[|subs|].address == address && r[|subs|].createdAt == now
    ensures r[|subs|].filters == (if filters.Undefined? then NoFilters else filters)
  {
    subs + [Subscriber(channel, address, if filters.Undefined? then NoFilters else filters, now)]
  }

  /** `list.includes(x)` when `list` is truthy, else no constraint. */
  function ListAllows(list: Value, x: Value): Result<bool>
  {
    if Truthy(list) then Includes(list, x) else Ok(true)
  }

  /** `matchesFilters(change, filters)`. Reading a property of `null` or `undefined`
      filters throws, and so does `includes` on a truthy list that is neither an array
      nor a string. */
  function MatchesFilters(c: Change, filters: Value): Result<bool>
  {
    if IsNullish(filters) then Thrown(TypeError)
    else
    var idOk :- ListAllows(Prop(filters, "competitorIds"), c.competitorId);
    if !idOk then Ok(false)
    else
      var severity := Prop(filters, "severity");
      if Truthy(severity) && !StrictEq(severity, Str(c.SeverityName())) then Ok(false)
      else
        var typeOk :- ListAllows(Prop(filters, "types"), Str(c.TypeName()));
        if !typeOk then Ok(false)
        else
          if Truthy(c.FieldValue()) then ListAllows(Prop(filters, "fields"), c.FieldValue()) else Ok(true)
  }

  /** A present list is an array containing `x`. */
  ghost predicate InList(list: Value, x: Value)
  {
    !Truthy(list) || (list.Arr? && InValues(list.items, x))
  }

  /** Filters as the source expects them: an object whose lists, when present, are
      arrays. */
  ghost predicate ArrayFilters(filters: Value)
  {
    && filters.Obj?
    && (!Truthy(filters.rec.Get("competitorIds")) || filters.rec.Get("competitorIds").Arr?)
    && (!Truthy(filters.rec.Get("types")) || filters.rec.Get("types").Arr?)
    && (!Truthy(filters.rec.Get("fields")) || filters.rec.Get("fields").Arr?)
  }

  /** Filters are a conjunction: each present filter must admit the change, the
      severity by exact equality with the change's severity name, and the field filter
      only when the change has a field. */
  lemma FiltersAreConjunction(c: Change, filters: Value)
    requires ArrayFilters(filters)
    ensures MatchesFilters(c, filters) == Ok(
      && InList(filters.rec.Get("competitorIds"), c.competitorId)
      && (!Truthy(filters.rec.Get("severity")) || filters.rec.Get("severity") == Str(c.SeverityName()))
      && InList(filters.rec.Get("types"), Str(c.TypeName()))
      && (c.NewCompetitor? || c.field == "" || InList(filters.rec.Get("fields"), Str(c.field))))
  {
    StrictEqIsEquivalence(Str(c.SeverityName()), filters.rec.Get("severity"), Str(c.SeverityName()));
  }

  /** An object without any of the four filters admits every change, in particular
      the default `{}`. */
  lemma EmptyFiltersMatchAll(c: Change, filters: Value)
    requires filters.Obj?
    requires forall key :: key in ["competitorIds", "severity", "types", "fields"] ==> !Truthy(filters.rec.Get(key))
    ensures MatchesFilters(c, filters) == Ok(true)
    ensures MatchesFilters(c, NoFilters) == Ok(true)
  {
    assert "competitorIds" in ["competitorIds", "severity", "types", "fields"];
    assert "severity" in ["competitorIds", "severity", "types", "fields"];
    assert "types" in ["competitorIds", "severity", "types", "fields"];
    assert "fields" in ["competitorIds", "severity", "types", "fields"];
  }

  /** A new-competitor change has no field, so the field filter cannot exclude it. */
  lemma FieldsIgnoredWithoutField(c: Change, filters: Value, fields: Value)
    requires c.NewCompetitor? && filters.Obj? && filters.rec.Valid()
    ensures MatchesFilters(c, filters) == MatchesFilters(c, Obj(filters.ref, filters.rec.Set("fields", fields)))
  {
    var other := Obj(filters.ref, filters.rec.Set("fields", fields));
    assert Prop(other, "competitorIds") == Prop(filters, "competitorIds");
    assert Prop(other, "severity") == Prop(filters, "severity");
    assert Prop(other, "types") == Prop(filters, "types");
    SameListsSameMatch(c, filters, other);
  }

  lemma SameListsSameMatch(c: Change, f: Value, g: Value)
    requires f.Obj? && g.Obj? && !Truthy(c.FieldValue())
    requires Prop(f, "competitorIds") == Prop(g, "competitorIds")
    requires Prop(f, "severity") == Prop(g, "severity")
    requires Prop(f, "types") == Prop(g, "types")
    ensures MatchesFilters(c, f) == MatchesFilters(c, g)
  {
  }

  /** Filters of `null` or `undefined` throw. */
  lemma NullishFiltersThrow(c: Change, filters: Value)
    requires IsNullish(filters)
    ensures MatchesFilters(c, filters).Thrown?
  {
  }

  /** A severity filter given as an array, such as the list of two severities the
      monitoring page subscribes with, never equals the change's severity string, so
      such a subscriber receives nothing. */
  lemma ArraySeverityNeverMatches(c: Change, filters: Value)
    requires filters.Obj? && filters.rec.Get("severity").Arr?
    ensures MatchesFilters(c, filters) != Ok(true)
  {
  }

  /** The severity filter as the monitoring page uses it: a list of severities, any of
      which admits the change. A string severity keeps its exact-match meaning. */
  function MatchesFiltersIntended(c: Change, filters: Value): (r: Result<bool>)
    ensures IsNullish(filters) ==> r.Thrown?
    ensures r == Ok(true) && Prop(filters, "severity").Arr? ==>
      InValues(Prop(filters, "severity").items, Str(c.SeverityName()))
  {
    if IsNullish(filters) then Thrown(TypeError)
    else
    var idOk :- ListAllows(Prop(filters, "competitorIds"), c.competitorId);
    if !idOk then Ok(false)
    else
      var severity := Prop(filters, "severity");
      var severityOk := if severity.Arr? then InValues(severity.items, Str(c.SeverityName()))
                        else !Truthy(severity) || StrictEq(severity, Str(c.SeverityName()));
      if !severityOk then Ok(false)
      else
        var typeOk :- ListAllows(Prop(filters, "types"), Str(c.TypeName()));
        if !typeOk then Ok(false)
        else
          if Truthy(c.FieldValue()) then ListAllows(Prop(filters, "fields"), c.FieldValue()) else Ok(true)
  }

  /** The filters the monitoring page sends: `{ severity: ['CRITICAL', 'WARNING'] }`. */
  function PageFilters(objRef: nat, listRef: nat): Value
  {
    Obj(objRef, Record(["severity"], map["severity" := Arr(listRef, [Str("CRITICAL"), Str("WARNING")])]))
  }

  /** With the page's filters the source admits nothing, while the intended reading
      admits exactly the critical and warning changes. */
  lemma PageSubscription(c: Change, objRef: nat, listRef: nat)
    ensures MatchesFilters(c, PageFilters(objRef, listRef)) == Ok(false)
    ensures MatchesFiltersIntended(c, PageFilters(objRef, listRef)) == Ok(c.Severity() != Info)
  {
    var items := [Str("CRITICAL"), Str("WARNING")];
    if c.Severity() == Critical {
      assert StrictEq(items[0], Str(c.SeverityName()));
    } else if c.Severity() == Warning {
      assert StrictEq(items[1], Str(c.SeverityName()));
    }
  }

  /** On filters without a severity list the intended reading is the source's. */
  lemma IntendedAgreesWithoutSeverityList(c: Change, filters: Value)
    requires !Prop(filters, "severity").Arr?
    ensures MatchesFiltersIntended(c, filters) == MatchesFilters(c, filters)
  {
  }

  /** `sendNotification(change)`: the subscribers whose filters admit the change, in
      order, each reached through its channel's notifier when there is one. A failed
      send is caught and logged, so it does not show; a throwing filter aborts the
      whole call before anything is sent. */
  function SendNotification(subs: seq<Subscriber>, c: Change): (r: Result<seq<Delivery>>)
    ensures r.Ok? ==> |r.value| <= |subs|
  {
    if |subs| == 0 then Ok([])
    else
      var matches :- MatchesFilters(c, subs[0].filters);
      var rest :- SendNotification(subs[1..], c);
      var s := subs[0];
      Ok((if matches && KnownChannel(s.channel) then [Delivery(ToStr(s.channel), s.address)] else []) + rest)
  }

  /** The test "on a known channel, with filters that admit the change". */
  function Reaches(c: Change): Subscriber -> bool
  {
    (s: Subscriber) => MatchesFilters(c, s.filters) == Ok(true) && KnownChannel(s.channel)
  }

  /** One delivery per subscriber, in order, through its channel to its address. */
  function DeliveriesTo(subs: seq<Subscriber>): (r: seq<Delivery>)
    ensures |r| == |subs|
    ensures forall i :: 0 <= i < |subs| ==> r[i] == Delivery(ToStr(subs[i].channel), subs[i].address)
  {
    seq(|subs|, i requires 0 <= i < |subs| => Delivery(ToStr(subs[i].channel), subs[i].address))
  }

  /** A delivery goes out exactly for a subscriber on a known channel whose filters
      admit the change, once per such subscriber and in subscription order; the call
      throws exactly when some subscriber's filters throw. */
  lemma {:induction false} SendNotificationSpec(subs: seq<Subscriber>, c: Change)
    ensures SendNotification(subs, c).Thrown? <==> exists i :: 0 <= i < |subs| && MatchesFilters(c, subs[i].filters).Thrown?
    ensures SendNotification(subs, c).Ok? ==> SendNotification(subs, c).value == DeliveriesTo(Filter(subs, Reaches(c)))
    ensures SendNotification(subs, c).Ok? ==> forall d :: d in SendNotification(subs, c).value <==>
      exists i :: 0 <= i < |subs| && MatchesFilters(c, subs[i].filters) == Ok(true)
        && KnownChannel(subs[i].channel) && d == Delivery(ToStr(subs[i].channel), subs[i].address)
    ensures SendNotification(subs, c).Ok? ==> forall d :: d in SendNotification(subs, c).value ==> d.channel in ChannelNames
    decreases |subs|
  {
    SendNotificationDelivers(subs, c);
    if |subs| > 0 {
      SendNotificationSpec(subs[1..], c);
      assert forall i :: 1 <= i < |subs| ==> subs[i] == subs[1..][i - 1];
      var r := SendNotification(subs, c);
      if r.Ok? {
        var rest := SendNotification(subs[1..], c).value;
        forall d | d in r.value
          ensures exists i :: (0 <= i < |subs| && MatchesFilters(c, subs[i].filters) == Ok(true)
            && KnownChannel(subs[i].channel) && d == Delivery(ToStr(subs[i].channel), subs[i].address))
        {
          if d !in rest {
            assert MatchesFilters(c, subs[0].filters) == Ok(true);
          } else {
            var i :| 0 <= i < |subs[1..]| && MatchesFilters(c, subs[1..][i].filters) == Ok(true)
              && KnownChannel(subs[1..][i].channel) && d == Delivery(ToStr(subs[1..][i].channel), subs[1..][i].address);
            assert subs[1..][i] == subs[i + 1];
          }
        }
      }
    }
  }

  lemma {:induction false} SendNotificationDelivers(subs: seq<Subscriber>, c: Change)
    ensures SendNotification(subs, c).Ok? ==> SendNotification(subs, c).value == DeliveriesTo(Filter(subs, Reaches(c)))
    decreases |subs|
  {
    var r := SendNotification(subs, c);
    if |subs| > 0 && r.Ok? {
      SendNotificationDelivers(subs[1..], c);
      SendStep(subs, c);
      var head := if Reaches(c)(subs[0]) then [subs[0]] else [];
      var tail := Filter(subs[1..], Reaches(c));
      assert Filter(subs, Reaches(c)) == head + tail;
      DeliveriesConcat(head, tail);
    }
  }

  /** The first subscriber's delivery, if any, comes before the rest's. */
  lemma SendStep(subs: seq<Subscriber>, c: Change)
    requires |subs| > 0 && SendNotification(subs, c).Ok?
    ensures SendNotification(subs[1..], c).Ok?
    ensures SendNotification(subs, c).value
      == DeliveriesTo(if Reaches(c)(subs[0]) then [subs[0]] else []) + SendNotification(subs[1..], c).value
  {
  }

  lemma DeliveriesConcat(a: seq<Subscriber>, b: seq<Subscriber>)
    ensures DeliveriesTo(a + b) == DeliveriesTo(a) + DeliveriesTo(b)
  {
  }

  /** A subscriber added without filters on a known channel hears about every change,
      as long as the earlier subscribers' filters do not throw. */
  lemma UnfilteredSubscriberHearsAll(subs: seq<Subscriber>, c: Change, channel: Value, address: Value, now: int)
    requires KnownChannel(channel)
    requires SendNotification(subs, c).Ok?
    ensures SendNotification(AddSubscriber(subs, channel, address, Undefined, now), c)
              == Ok(SendNotification(subs, c).value + [Delivery(ToStr(channel), address)])
  {
    EmptyFiltersMatchAll(c, NoFilters);
    SendAppend(subs, Subscriber(channel, address, NoFilters, now), c);
  }

  lemma {:induction false} SendAppend(subs: seq<Subscriber>, s: Subscriber, c: Change)
    requires SendNotification(subs, c).Ok?
    requires MatchesFilters(c, s.filters) == Ok(true) && KnownChannel(s.channel)
    ensures SendNotification(subs + [s], c) == Ok(SendNotification(subs, c).value + [Delivery(ToStr(s.channel), s.address)])
    decreases |subs|
  {
    if |subs| == 0 {
      assert subs + [s] == [s];
      assert [s][1..] == [];
      var d := Delivery(ToStr(s.channel), s.address);
      assert SendNotification([s], c) == Ok([d] + []);
      assert [d] + [] == [] + [d];
    } else {
      SendAppend(subs[1..], s, c);
      assert (subs + [s])[1..] == subs[1..] + [s];
      assert (subs + [s])[0] == subs[0];
      var head := if MatchesFilters(c, subs[0].filters) == Ok(true) && KnownChannel(subs[0].channel)
                  then [Delivery(ToStr(subs[0].channel), subs[0].address)] else [];
      var rest := SendNotification(subs[1..], c).value;
      var d := Delivery(ToStr(s.channel), s.address);
      assert SendNotification(subs, c) == Ok(head + rest);
      assert SendNotification(subs + [s], c) == Ok(head + (rest + [d]));
      assert head + (rest + [d]) == (head + rest) + [d];
    }
  }
}
