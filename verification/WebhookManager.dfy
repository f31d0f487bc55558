/**
The webhook registry of internal/webhook/manager.go and its routing index.

The index is rebuilt when event lists change, but a status change alone does not touch it: a
route's `active` flag remembers the status its webhook had when it was last indexed.
*/
module WebhookManager {
  import opened Results

  datatype Status = Active | Inactive | Disabled

  datatype Webhook = Webhook(id: nat, name: string, url: string, status: Status, events: seq<string>)

  datatype Router = Router(webhookID: nat, name: string, events: seq<string>, active: bool)

  datatype Update = Update(name: Option<string>, url: Option<string>, status: Option<Status>,
                           events: Option<seq<string>>)

  type Webhooks = map<nat, Webhook>
  type Routes = map<string, seq<Router>>
  type Flags = map<nat, bool>

  // ----- counting -----

  function Occurrences(events: seq<string>, e: string): nat {
    if events == [] then 0 else Occurrences(events[..|events| - 1], e) + (if events[|events| - 1] == e then 1 else 0)
  }

  lemma {:induction false} OccursIffMember(events: seq<string>, e: string)
    ensures Occurrences(events, e) > 0 <==> e in events
  {
    if events != [] {
      OccursIffMember(events[..|events| - 1], e);
      assert events == events[..|events| - 1] + [events[|events| - 1]];
    }
  }

  /** How many routes of a list lead to webhook `id`. */
  function RoutesTo(rs: seq<Router>, id: nat): nat {
    if rs == [] then 0 else RoutesTo(rs[..|rs| - 1], id) + (if rs[|rs| - 1].webhookID == id then 1 else 0)
  }

  function For(routes: Routes, e: string): seq<Router> {
    if e in routes then routes[e] else []
  }

  // ----- what the index must be -----

  /** Each event lists every webhook exactly as often as the event occurs in the webhook's own list. */
  ghost predicate CountsAgree(hooks: Webhooks, routes: Routes) {
    forall e, id :: RoutesTo(For(routes, e), id) == Subscriptions(hooks, id, e)
  }

  function Subscriptions(hooks: Webhooks, id: nat, e: string): nat {
    if id in hooks then Occurrences(hooks[id].events, e) else 0
  }

  /** Routes carry the event list of their webhook and the activity it had when last indexed. */
  ghost predicate RoutesDescribe(hooks: Webhooks, routes: Routes, flags: Flags) {
    forall e, r :: r in For(routes, e) ==>
      r.webhookID in hooks && r.webhookID in flags && r.active == flags[r.webhookID] &&
      r.events == hooks[r.webhookID].events
  }

  ghost predicate IndexOk(hooks: Webhooks, routes: Routes, flags: Flags) {
    flags.Keys == hooks.Keys && CountsAgree(hooks, routes) && RoutesDescribe(hooks, routes, flags)
  }

  function RouterFor(wh: Webhook): Router {
    Router(wh.id, wh.name, wh.events, wh.status == Active)
  }

  /** The index after the first `k` events of `wh` have been entered. */
  ghost predicate Entered(before: Routes, after: Routes, wh: Webhook, k: nat)
    requires k <= |wh.events|
  {
    EnteredCounts(before, after, wh, k) && EnteredOnly(before, after, wh)
  }

  ghost predicate EnteredCounts(before: Routes, after: Routes, wh: Webhook, k: nat)
    requires k <= |wh.events|
  {
    forall e, id :: RoutesTo(For(after, e), id) ==
      RoutesTo(For(before, e), id) + (if id == wh.id then Occurrences(wh.events[..k], e) else 0)
  }

  ghost predicate EnteredOnly(before: Routes, after: Routes, wh: Webhook) {
    forall e, r :: r in For(after, e) ==> r in For(before, e) || r == RouterFor(wh)
  }

  /** The index with one more route to `wh` under event `e`. */
  function WithRoute(routes: Routes, e: string, wh: Webhook): Routes {
    routes[e := For(routes, e) + [RouterFor(wh)]]
  }

  lemma WithRouteCount(mid: Routes, ev: string, wh: Webhook, e: string, id: nat)
    ensures RoutesTo(For(WithRoute(mid, ev, wh), e), id) ==
            RoutesTo(For(mid, e), id) + (if id == wh.id && e == ev then 1 else 0)
  {
  }

  lemma OccurrencesStep(events: seq<string>, k: nat, e: string)
    requires k < |events|
    ensures Occurrences(events[..k + 1], e) == Occurrences(events[..k], e) + (if e == events[k] then 1 else 0)
  {
    assert events[..k + 1][..k] == events[..k];
  }

  lemma EnterOneCount(before: Routes, mid: Routes, wh: Webhook, k: nat)
    requires k < |wh.events| && EnteredCounts(before, mid, wh, k)
    ensures EnteredCounts(before, WithRoute(mid, wh.events[k], wh), wh, k + 1)
  {
    forall e, id
      ensures RoutesTo(For(WithRoute(mid, wh.events[k], wh), e), id) ==
              RoutesTo(For(before, e), id) + (if id == wh.id then Occurrences(wh.events[..k + 1], e) else 0)
    {
      WithRouteCount(mid, wh.events[k], wh, e, id);
      OccurrencesStep(wh.events, k, e);
      assert RoutesTo(For(mid, e), id) ==
             RoutesTo(For(before, e), id) + (if id == wh.id then Occurrences(wh.events[..k], e) else 0);
    }
  }

  lemma EnterOne(before: Routes, mid: Routes, wh: Webhook, k: nat)
    requires k < |wh.events| && Entered(before, mid, wh, k)
    ensures Entered(before, WithRoute(mid, wh.events[k], wh), wh, k + 1)
  {
    EnterOneCount(before, mid, wh, k);
    var after := WithRoute(mid, wh.events[k], wh);
    forall e, r | r in For(after, e)
      ensures r in For(before, e) || r == RouterFor(wh)
    {
      assert r in For(mid, e) || r == RouterFor(wh);
    }
  }

  method IndexEventRoutes(routes: Routes, wh: Webhook) returns (r: Routes)
    ensures Entered(routes, r, wh, |wh.events|)
  {
    r := routes;
    assert forall e :: Occurrences(wh.events[..0], e) == 0;
    for k := 0 to |wh.events|
      invariant Entered(routes, r, wh, k)
    {
      EnterOne(routes, r, wh, k);
      r := WithRoute(r, wh.events[k], wh);
    }
  }

  /** The statuses as an index made now would record them. */
  function FlagsOf(hooks: Webhooks): Flags {
    map id | id in hooks :: hooks[id].status == Active
  }

  ghost predicate IdsMatch(hooks: Webhooks) {
    forall id :: id in hooks ==> hooks[id].id == id
  }

  lemma EnterNewCounts(hooks: Webhooks, routes: Routes, wh: Webhook, after: Routes)
    requires CountsAgree(hooks, routes) && wh.id !in hooks && Entered(routes, after, wh, |wh.events|)
    ensures CountsAgree(hooks[wh.id := wh], after)
  {
    assert wh.events[..|wh.events|] == wh.events;
    var more := hooks[wh.id := wh];
    forall e, id
      ensures RoutesTo(For(after, e), id) == Subscriptions(more, id, e)
    {
      assert RoutesTo(For(routes, e), id) == Subscriptions(hooks, id, e);
    }
  }

  /** Entering a webhook that the index does not mention yet extends a correct index. */
  lemma EnterNew(hooks: Webhooks, routes: Routes, flags: Flags, wh: Webhook, after: Routes)
    requires IndexOk(hooks, routes, flags) && wh.id !in hooks && Entered(routes, after, wh, |wh.events|)
    ensures IndexOk(hooks[wh.id := wh], after, flags[wh.id := wh.status == Active])
  {
    EnterNewCounts(hooks, routes, wh, after);
    var more, up := hooks[wh.id := wh], flags[wh.id := wh.status == Active];
    forall e, r | r in For(after, e)
      ensures r.webhookID in more && r.webhookID in up && r.active == up[r.webhookID] &&
              r.events == more[r.webhookID].events
    {
      assert r in For(routes, e) || r == RouterFor(wh);
    }
  }

  lemma EnterCurrent(done: Webhooks, routes: Routes, wh: Webhook, after: Routes)
    requires IndexOk(done, routes, FlagsOf(done)) && wh.id !in done && Entered(routes, after, wh, |wh.events|)
    ensures IndexOk(done[wh.id := wh], after, FlagsOf(done[wh.id := wh]))
  {
    EnterNew(done, routes, FlagsOf(done), wh, after);
    assert FlagsOf(done)[wh.id := wh.status == Active] == FlagsOf(done[wh.id := wh]);
  }

  method RebuildEventRoutes(hooks: Webhooks) returns (r: Routes)
    requires IdsMatch(hooks)
    ensures IndexOk(hooks, r, FlagsOf(hooks))
  {
    r := map[];
    var rest := hooks.Keys;
    ghost var done: Webhooks := map[];
    while rest != {}
      invariant rest <= hooks.Keys && done.Keys == hooks.Keys - rest
      invariant forall id :: id in done ==> done[id] == hooks[id]
      invariant IndexOk(done, r, FlagsOf(done))
    {
      var id :| id in rest;
      rest := rest - {id};
      ghost var before := r;
      r := IndexEventRoutes(r, hooks[id]);
      EnterCurrent(done, before, hooks[id], r);
      done := done[id := hooks[id]];
    }
    assert done == hooks;
  }

  // ----- what a lookup returns -----

  /** A route is followed when it was indexed as active and its webhook is active now. */
  predicate Followed(hooks: Webhooks, r: Router) {
    r.active && r.webhookID in hooks && hooks[r.webhookID].status == Active
  }

  function Matching(hooks: Webhooks, rs: seq<Router>): seq<Webhook> {
    if rs == [] then []
    else
      Matching(hooks, rs[..|rs| - 1])
      + (if Followed(hooks, rs[|rs| - 1]) then [hooks[rs[|rs| - 1].webhookID]] else [])
  }

  function Copies(ws: seq<Webhook>, id: nat): nat {
    if ws == [] then 0 else Copies(ws[..|ws| - 1], id) + (if ws[|ws| - 1].id == id then 1 else 0)
  }

  lemma CopiesAppend(ws: seq<Webhook>, w: Webhook, id: nat)
    ensures Copies(ws + [w], id) == Copies(ws, id) + (if w.id == id then 1 else 0)
  {
  }

  lemma {:induction false} MatchingCopies(hooks: Webhooks, rs: seq<Router>, flags: Flags, id: nat)
    requires IdsMatch(hooks) && forall r :: r in rs ==> r.webhookID in flags && r.active == flags[r.webhookID]
    ensures Copies(Matching(hooks, rs), id) ==
            if id in hooks && hooks[id].status == Active && id in flags && flags[id] then RoutesTo(rs, id) else 0
  {
    if rs != [] {
      var init, last := rs[..|rs| - 1], rs[|rs| - 1];
      assert last in rs;
      MatchingCopies(hooks, init, flags, id);
      if Followed(hooks, last) {
        CopiesAppend(Matching(hooks, init), hooks[last.webhookID], id);
      } else {
        assert Matching(hooks, rs) == Matching(hooks, init);
      }
    }
  }

  lemma {:induction false} CopiesMember(ws: seq<Webhook>, id: nat)
    ensures Copies(ws, id) > 0 <==> exists w :: w in ws && w.id == id
  {
    if ws != [] {
      var init, last := ws[..|ws| - 1], ws[|ws| - 1];
      CopiesMember(init, id);
      assert ws == init + [last];
      if last.id == id {
        assert last in ws;
      }
    }
  }

  lemma {:induction false} MatchingAreHooks(hooks: Webhooks, rs: seq<Router>)
    ensures forall w :: w in Matching(hooks, rs) ==> w.status == Active && exists id :: id in hooks && hooks[id] == w
  {
    if rs != [] {
      MatchingAreHooks(hooks, rs[..|rs| - 1]);
    }
  }

  ghost predicate ActiveSubscriber(hooks: Webhooks, id: nat, e: string) {
    id in hooks && hooks[id].status == Active && e in hooks[id].events
  }

  /**
  With a correct index, a lookup lists an active webhook as often as the event occurs in its list
  if it was active when last indexed, and lists nothing else.
  */
  lemma LookupExact(hooks: Webhooks, routes: Routes, flags: Flags, e: string, id: nat)
    requires IdsMatch(hooks) && IndexOk(hooks, routes, flags)
    ensures Copies(Matching(hooks, For(routes, e)), id) ==
            if id in hooks && hooks[id].status == Active && flags[id] then Occurrences(hooks[id].events, e) else 0
  {
    MatchingCopies(hooks, For(routes, e), flags, id);
  }

  /** A lookup is complete exactly when no active subscriber was last indexed while inactive. */
  lemma LookupCompleteIff(hooks: Webhooks, routes: Routes, flags: Flags, e: string)
    requires IdsMatch(hooks) && IndexOk(hooks, routes, flags)
    ensures (forall id :: ActiveSubscriber(hooks, id, e) ==> Copies(Matching(hooks, For(routes, e)), id) > 0)
       <==> (forall id :: ActiveSubscriber(hooks, id, e) ==> flags[id])
  {
    forall id | ActiveSubscriber(hooks, id, e)
      ensures Copies(Matching(hooks, For(routes, e)), id) > 0 <==> flags[id]
    {
      LookupExact(hooks, routes, flags, e, id);
      OccursIffMember(hooks[id].events, e);
    }
  }

  // ----- the manager object -----

  class Manager {
    var webhooks: Webhooks
    var eventRoutes: Routes
    /** For each webhook, whether it was active when it was last indexed. */
    ghost var indexed: Flags

    ghost predicate Valid()
      reads this
    {
      IdsMatch(webhooks) && IndexOk(webhooks, eventRoutes, indexed)
    }

    constructor ()
      ensures Valid() && webhooks == map[]
    {
      webhooks, eventRoutes, indexed := map[], map[], map[];
    }

    /** `id` stands for a freshly drawn identifier. */
    method RegisterWebhook(id: nat, name: string, url: string, events: seq<string>) returns (r: Option<Webhook>)
      requires Valid() && id !in webhooks
      modifies this
      ensures Valid()
      ensures r.None? <==> name == "" || url == "" || events == []
      ensures r.None? ==> webhooks == old(webhooks) && indexed == old(indexed)
      ensures r.Some? ==> r.value == Webhook(id, name, url, Active, events)
      ensures r.Some? ==> webhooks == old(webhooks)[id := r.value] && indexed == old(indexed)[id := true]
    {
      if name == "" || url == "" || |events| == 0 {
        return None;
      }
      var wh := Webhook(id, name, url, Active, events);
      ghost var hooks, routes, flags := webhooks, eventRoutes, indexed;
      webhooks := webhooks[id := wh];
      var rs := IndexEventRoutes(eventRoutes, wh);
      EnterNew(hooks, routes, flags, wh, rs);
      eventRoutes := rs;
      indexed := indexed[id := true];
      return Some(wh);
    }

    method Rebuild()
      requires IdsMatch(webhooks)
      modifies this`eventRoutes, this`indexed
      ensures Valid() && indexed == FlagsOf(webhooks)
    {
      eventRoutes := RebuildEventRoutes(webhooks);
      indexed := FlagsOf(webhooks);
    }

    /** Replacing a webhook without touching its event list keeps the index correct. */
    lemma StatusChangeKeepsIndex(hooks: Webhooks, routes: Routes, flags: Flags, wh: Webhook)
      requires IndexOk(hooks, routes, flags) && wh.id in hooks && wh.events == hooks[wh.id].events
      ensures IndexOk(hooks[wh.id := wh], routes, flags)
    {
      var next := hooks[wh.id := wh];
      forall e, id
        ensures RoutesTo(For(routes, e), id) == Subscriptions(next, id, e)
      {
        assert RoutesTo(For(routes, e), id) == Subscriptions(hooks, id, e);
      }
    }

    method UpdateWebhook(id: nat, u: Update) returns (found: bool)
      requires Valid()
      modifies this
      ensures Valid()
      ensures found <==> id in old(webhooks)
      ensures !found ==> webhooks == old(webhooks) && indexed == old(indexed)
      ensures found ==> webhooks == old(webhooks)[id := Updated(old(webhooks)[id], u)]
      ensures found ==>
                && webhooks[id].id == old(webhooks)[id].id
                && webhooks[id].name == (if u.name.Some? then u.name.value else old(webhooks)[id].name)
                && webhooks[id].url == (if u.url.Some? then u.url.value else old(webhooks)[id].url)
                && webhooks[id].status == (if u.status.Some? then u.status.value else old(webhooks)[id].status)
                && webhooks[id].events == (if u.events.Some? then u.events.value else old(webhooks)[id].events)
      ensures found ==> indexed == if u.events.Some? then FlagsOf(webhooks) else old(indexed)
    {
      if id !in webhooks {
        return false;
      }
      var wh := webhooks[id];
      if u.name.Some? {
        wh := wh.(name := u.name.value);
      }
      if u.url.Some? {
        wh := wh.(url := u.url.value);
      }
      if u.status.Some? {
        wh := wh.(status := u.status.value);
      }
      if u.events.Some? {
        wh := wh.(events := u.events.value);
        webhooks := webhooks[id := wh];
        Rebuild();
      } else {
        StatusChangeKeepsIndex(webhooks, eventRoutes, indexed, wh);
        webhooks := webhooks[id := wh];
      }
      return true;
    }

    method DeleteWebhook(id: nat) returns (found: bool)
      requires Valid()
      modifies this
      ensures Valid()
      ensures found <==> id in old(webhooks)
      ensures webhooks == old(webhooks) - {id}
      ensures indexed == if found then FlagsOf(webhooks) else old(indexed)
    {
      if id !in webhooks {
        return false;
      }
      webhooks := webhooks - {id};
      Rebuild();
      return true;
    }

    method SetWebhookStatus(id: nat, status: Status) returns (found: bool)
      requires Valid()
      modifies this
      ensures Valid()
      ensures found <==> id in old(webhooks)
      ensures webhooks == if found then old(webhooks)[id := old(webhooks)[id].(status := status)] else old(webhooks)
      ensures indexed == old(indexed) && eventRoutes == old(eventRoutes)
    {
      if id !in webhooks {
        return false;
      }
      StatusChangeKeepsIndex(webhooks, eventRoutes, indexed, webhooks[id].(status := status));
      webhooks := webhooks[id := webhooks[id].(status := status)];
      return true;
    }

    method SubscribeToEvents(id: nat, events: seq<string>) returns (found: bool)
      requires Valid()
      modifies this
      ensures Valid()
      ensures found <==> id in old(webhooks)
      ensures webhooks == if found then old(webhooks)[id := old(webhooks)[id].(events := events)] else old(webhooks)
      ensures indexed == if found then FlagsOf(webhooks) else old(indexed)
    {
      if id !in webhooks {
        return false;
      }
      webhooks := webhooks[id := webhooks[id].(events := events)];
      Rebuild();
      return true;
    }

    method AddEventSubscription(id: nat, eventType: string) returns (found: bool)
      requires Valid()
      modifies this
      ensures Valid()
      ensures found <==> id in old(webhooks)
      ensures !found || eventType in old(webhooks)[id].events ==> webhooks == old(webhooks) && indexed == old(indexed)
      ensures found && eventType !in old(webhooks)[id].events ==>
                webhooks == old(webhooks)[id := old(webhooks)[id].(events := old(webhooks)[id].events + [eventType])] &&
                indexed == FlagsOf(webhooks)
    {
      if id !in webhooks {
        return false;
      }
      var wh := webhooks[id];
      for i := 0 to |wh.events|
        invariant eventType !in wh.events[..i]
      {
        if wh.events[i] == eventType {
          return true;
        }
      }
      webhooks := webhooks[id := wh.(events := wh.events + [eventType])];
      Rebuild();
      return true;
    }

    method RemoveEventSubscription(id: nat, eventType: string) returns (found: bool)
      requires Valid()
      modifies this
      ensures Valid()
      ensures found <==> id in old(webhooks)
      ensures !found ==> webhooks == old(webhooks) && indexed == old(indexed)
      ensures found ==>
                var wh := old(webhooks)[id];
                webhooks == old(webhooks)[id := wh.(events := Without(wh.events, eventType))]
      ensures found ==> indexed == FlagsOf(webhooks)
      ensures found ==> forall e :: Occurrences(webhooks[id].events, e) ==
                          if e == eventType then 0 else Occurrences(old(webhooks)[id].events, e)
    {
      if id !in webhooks {
        return false;
      }
      forall e {
        WithoutOccurrences(webhooks[id].events, eventType, e);
      }
      var wh := webhooks[id];
      var filtered: seq<string> := [];
      for i := 0 to |wh.events|
        invariant filtered == Without(wh.events[..i], eventType)
      {
        assert wh.events[..i + 1][..i] == wh.events[..i];
        if wh.events[i] != eventType {
          filtered := filtered + [wh.events[i]];
        }
      }
      assert wh.events[..|wh.events|] == wh.events;
      webhooks := webhooks[id := wh.(events := filtered)];
      Rebuild();
      return true;
    }

    method GetWebhooksForEvent(eventType: string) returns (result: seq<Webhook>)
      requires Valid()
      ensures result == Matching(webhooks, For(eventRoutes, eventType))
      ensures forall w :: w in result ==>
                w.id in webhooks && webhooks[w.id] == w && ActiveSubscriber(webhooks, w.id, eventType)
      ensures (forall id :: ActiveSubscriber(webhooks, id, eventType) ==> indexed[id]) ==>
                forall id :: ActiveSubscriber(webhooks, id, eventType) ==> webhooks[id] in result
    {
      result := [];
      var routers := For(eventRoutes, eventType);
      for i := 0 to |routers|
        invariant result == Matching(webhooks, routers[..i])
      {
        assert routers[..i + 1][..i] == routers[..i];
        if routers[i].active {
          if routers[i].webhookID in webhooks && webhooks[routers[i].webhookID].status == Active {
            result := result + [webhooks[routers[i].webhookID]];
          }
        }
      }
      assert routers[..|routers|] == routers;
      LookupMembers(webhooks, eventRoutes, indexed, eventType);
    }

    method HasSubscribers(eventType: string) returns (b: bool)
      ensures b <==> Matching(webhooks, For(eventRoutes, eventType)) != []
    {
      var routers := For(eventRoutes, eventType);
      for i := 0 to |routers|
        invariant Matching(webhooks, routers[..i]) == []
      {
        assert routers[..i + 1][..i] == routers[..i];
        if routers[i].active {
          if routers[i].webhookID in webhooks && webhooks[routers[i].webhookID].status == Active {
            MatchingPrefix(webhooks, routers, i + 1);
            return true;
          }
        }
      }
      assert routers[..|routers|] == routers;
      return false;
    }

    method SubscriberCount(eventType: string) returns (count: nat)
      ensures count == |Matching(webhooks, For(eventRoutes, eventType))|
    {
      count := 0;
      var routers := For(eventRoutes, eventType);
      for i := 0 to |routers|
        invariant count == |Matching(webhooks, routers[..i])|
      {
        assert routers[..i + 1][..i] == routers[..i];
        if routers[i].active {
          if routers[i].webhookID in webhooks && webhooks[routers[i].webhookID].status == Active {
            count := count + 1;
          }
        }
      }
      assert routers[..|routers|] == routers;
    }
  }

  function Updated(wh: Webhook, u: Update): Webhook {
    wh.(name := if u.name.Some? then u.name.value else wh.name,
        url := if u.url.Some? then u.url.value else wh.url,
        status := if u.status.Some? then u.status.value else wh.status,
        events := if u.events.Some? then u.events.value else wh.events)
  }

  function Without(events: seq<string>, e: string): (r: seq<string>)
    ensures e !in r && forall x :: x in r <==> x in events && x != e
  {
    if events == [] then []
    else Without(events[..|events| - 1], e) + (if events[|events| - 1] == e then [] else [events[|events| - 1]])
  }

  /** Removing an event leaves every other one as often as before. */
  lemma {:induction false} WithoutOccurrences(events: seq<string>, e: string, x: string)
    ensures Occurrences(Without(events, e), x) == if x == e then 0 else Occurrences(events, x)
  {
    if events != [] {
      var before, last := events[..|events| - 1], events[|events| - 1];
      WithoutOccurrences(before, e, x);
      if last == e {
        assert Without(events, e) == Without(before, e);
      } else {
        assert Without(events, e) == Without(before, e) + [last];
        assert (Without(before, e) + [last])[..|Without(before, e)|] == Without(before, e);
      }
    }
  }

  /** And it keeps their order: it works on each part of the list separately. */
  lemma {:induction false} WithoutConcat(a: seq<string>, b: seq<string>, e: string)
    ensures Without(a + b, e) == Without(a, e) + Without(b, e)
    ensures e !in a ==> Without(a, e) == a
  {
    if e !in a {
      WithoutAbsent(a, e);
    }
    if b == [] {
      assert a + b == a;
    } else {
      assert (a + b)[..|a + b| - 1] == a + b[..|b| - 1];
      WithoutConcat(a, b[..|b| - 1], e);
    }
  }

  lemma {:induction false} WithoutAbsent(events: seq<string>, e: string)
    requires e !in events
    ensures Without(events, e) == events
  {
    if events != [] {
      WithoutAbsent(events[..|events| - 1], e);
    }
  }

  lemma {:induction false} MatchingPrefix(hooks: Webhooks, rs: seq<Router>, k: nat)
    requires k <= |rs|
    ensures Matching(hooks, rs[..k]) <= Matching(hooks, rs)
    decreases |rs| - k
  {
    if k == |rs| {
      assert rs[..k] == rs;
    } else {
      MatchingPrefix(hooks, rs, k + 1);
      assert rs[..k + 1][..k] == rs[..k];
    }
  }

  /** Everything a lookup returns is an active subscriber, and it returns all that are indexed as active. */
  lemma LookupMembers(hooks: Webhooks, routes: Routes, flags: Flags, e: string)
    requires IdsMatch(hooks) && IndexOk(hooks, routes, flags)
    ensures forall w :: w in Matching(hooks, For(routes, e)) ==>
              w.id in hooks && hooks[w.id] == w && ActiveSubscriber(hooks, w.id, e)
    ensures forall id :: ActiveSubscriber(hooks, id, e) && flags[id] ==> hooks[id] in Matching(hooks, For(routes, e))
  {
    var ws := Matching(hooks, For(routes, e));
    MatchingAreHooks(hooks, For(routes, e));
    forall w | w in ws
      ensures w.id in hooks && hooks[w.id] == w && ActiveSubscriber(hooks, w.id, e)
    {
      CopiesMember(ws, w.id);
      LookupExact(hooks, routes, flags, e, w.id);
      OccursIffMember(hooks[w.id].events, e);
    }
    forall id | ActiveSubscriber(hooks, id, e) && flags[id]
      ensures hooks[id] in ws
    {
      LookupExact(hooks, routes, flags, e, id);
      OccursIffMember(hooks[id].events, e);
      CopiesMember(ws, id);
    }
  }

  /** A webhook whose subscriptions were edited while it was inactive stays unreachable after reactivation. */
  method StaleAfterReactivation() returns (m: Manager, found: seq<Webhook>)
    ensures fresh(m) && m.Valid()
    ensures ActiveSubscriber(m.webhooks, 1, "job.done") && found == Matching(m.webhooks, For(m.eventRoutes, "job.done"))
    ensures found == []
  {
    m := new Manager();
    var _ := m.RegisterWebhook(1, "a", "http://a", ["job.done"]);
    var _ := m.SetWebhookStatus(1, Inactive);
    var _ := m.SubscribeToEvents(1, ["job.done"]);
    assert m.webhooks.Keys == {1} && !m.indexed[1];
    var _ := m.SetWebhookStatus(1, Active);
    NothingFound(m.webhooks, m.eventRoutes, m.indexed, "job.done");
    found := m.GetWebhooksForEvent("job.done");
  }

  lemma NothingFound(hooks: Webhooks, routes: Routes, flags: Flags, e: string)
    requires IdsMatch(hooks) && IndexOk(hooks, routes, flags) && forall id :: id in flags ==> !flags[id]
    ensures Matching(hooks, For(routes, e)) == []
  {
    var ws := Matching(hooks, For(routes, e));
    if ws != [] {
      var id := ws[0].id;
      assert ws[0] in ws;
      CopiesMember(ws, id);
      LookupExact(hooks, routes, flags, e, id);
    }
  }
}
