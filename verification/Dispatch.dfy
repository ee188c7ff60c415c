// Publication of extension handlers: per-plugin lists from an unordered map, sorted into one snapshot.
module Dispatch {
  import opened Text
  import opened StableSort

  // ---------------------------------------------------------------- ordering

  predicate ExtensionLess(aPriority: int, aPlugin: string, aHandler: string,
                          bPriority: int, bPlugin: string, bHandler: string) {
    if aPriority != bPriority then aPriority < bPriority
    else if aPlugin != bPlugin then StringLess(aPlugin, bPlugin)
    else StringLess(aHandler, bHandler)
  }

  // Sort key of a route, rule, status, middleware or subscriber handler.
  function HandlerKey(priority: int, plugin: string, handler: string): Key {
    Key("", priority, plugin, handler)
  }

  // Sort key of a provider: plugin ids do not take part.
  function ProviderKey(kind: string, priority: int, name: string): Key {
    Key(kind, priority, name, "")
  }

  // extensionLess is a strict total order on handlers with distinct (priority, plugin, handler).
  lemma ExtensionLessStrictTotal(p1: int, g1: string, h1: string, p2: int, g2: string, h2: string,
                                 p3: int, g3: string, h3: string)
    ensures ExtensionLess(p1, g1, h1, p2, g2, h2) <==> KeyLess(HandlerKey(p1, g1, h1), HandlerKey(p2, g2, h2))
    ensures !ExtensionLess(p1, g1, h1, p1, g1, h1)
    ensures ExtensionLess(p1, g1, h1, p2, g2, h2) && ExtensionLess(p2, g2, h2, p3, g3, h3) ==>
              ExtensionLess(p1, g1, h1, p3, g3, h3)
    ensures (p1, g1, h1) != (p2, g2, h2) ==>
              (ExtensionLess(p1, g1, h1, p2, g2, h2) <==> !ExtensionLess(p2, g2, h2, p1, g1, h1))
  {
    var a, b, c := HandlerKey(p1, g1, h1), HandlerKey(p2, g2, h2), HandlerKey(p3, g3, h3);
    KeyLessIrreflexive(a);
    KeyLessTotal(a, b);
    if KeyLess(a, b) && KeyLess(b, a) {
      KeyLessTransitive(a, b, a);
    }
    if KeyLess(a, b) && KeyLess(b, c) {
      KeyLessTransitive(a, b, c);
    }
  }

  // The comparison that sorts the providers.
  predicate ProviderLess(aKind: string, aPriority: int, aName: string, bKind: string, bPriority: int, bName: string) {
    if aKind != bKind then StringLess(aKind, bKind)
    else if aPriority != bPriority then aPriority < bPriority
    else StringLess(aName, bName)
  }

  // It orders providers by their keys, and leaves two of them unordered exactly when type, priority and
  // name agree, whichever plugins they belong to.
  lemma ProvidersTieOnEqualKeys(k1: string, p1: int, n1: string, k2: string, p2: int, n2: string)
    ensures ProviderLess(k1, p1, n1, k2, p2, n2) <==> KeyLess(ProviderKey(k1, p1, n1), ProviderKey(k2, p2, n2))
    ensures !ProviderLess(k1, p1, n1, k2, p2, n2) && !ProviderLess(k2, p2, n2, k1, p1, n1)
            <==> (k1, p1, n1) == (k2, p2, n2)
  {
    var a, b := ProviderKey(k1, p1, n1), ProviderKey(k2, p2, n2);
    StringLessIrreflexive("");
    StringLessIrreflexive(n1);
    KeyLessTotal(a, b);
    KeyLessIrreflexive(a);
  }

  // ---------------------------------------------------------------- publication of one list

  // A registered handler or provider of a plugin; the payload stands for the rest of it.
  type Extension = Entry<nat>

  type Lists = map<string, seq<Extension>>

  // The order in which Go happens to iterate over a map: every key exactly once.
  ghost predicate IsOrder(order: seq<string>, keys: set<string>) {
    && (forall p :: p in keys <==> p in order)
    && (forall i, j :: 0 <= i < j < |order| ==> order[i] != order[j])
  }

  function Collect(lists: Lists, order: seq<string>): seq<Extension>
    requires forall p :: p in order ==> p in lists
  {
    if order == [] then [] else lists[order[0]] + Collect(lists, order[1..])
  }

  function Publish(lists: Lists, order: seq<string>): seq<Extension>
    requires forall p :: p in order ==> p in lists
  {
    Sort(Collect(lists, order))
  }

  // Every entry is registered under its own plugin.
  predicate Owned(lists: Lists) {
    forall p :: p in lists ==> forall e :: e in lists[p] ==> e.pluginId == p
  }

  // No two plugins have entries that compare equal.
  predicate NoCrossTies(lists: Lists) {
    forall p, q, x, y :: p in lists && q in lists && p != q && x in lists[p] && y in lists[q] ==> x.key != y.key
  }

  // Handler keys name their plugin, so handlers of different plugins never tie.
  predicate HandlerLists(lists: Lists) {
    Owned(lists) && forall p, e :: p in lists && e in lists[p] ==> e.key.group == "" && e.key.name == p
  }

  lemma HandlersNeverTie(lists: Lists)
    requires HandlerLists(lists)
    ensures NoCrossTies(lists)
  {
  }

  // At most plugin p has entries with key k.
  predicate OwnsKey(lists: Lists, p: string, k: Key) {
    forall q :: q in lists && q != p ==> Class(lists[q], k) == []
  }

  lemma KeyOwner(lists: Lists, k: Key) returns (p: string)
    requires NoCrossTies(lists)
    ensures OwnsKey(lists, p, k)
  {
    if q :| q in lists && Class(lists[q], k) != [] {
      p := q;
      ClassEmpty(lists[q], k);
      forall r | r in lists && r != p
        ensures Class(lists[r], k) == []
      {
        ClassEmpty(lists[r], k);
      }
    } else {
      p := "";
    }
  }

  lemma {:induction false} CollectClass(lists: Lists, order: seq<string>, p: string, k: Key)
    requires forall q :: q in order ==> q in lists
    requires forall i, j :: 0 <= i < j < |order| ==> order[i] != order[j]
    requires OwnsKey(lists, p, k)
    ensures Class(Collect(lists, order), k) == if p in order then Class(lists[p], k) else []
    decreases |order|
  {
    if order != [] {
      ClassConcat(lists[order[0]], Collect(lists, order[1..]), k);
      CollectClass(lists, order[1..], p, k);
      assert order == [order[0]] + order[1..];
    }
  }

  // Without cross ties the snapshot does not depend on the iteration order.
  lemma PublishIgnoresOrder(lists: Lists, o1: seq<string>, o2: seq<string>)
    requires NoCrossTies(lists) && IsOrder(o1, lists.Keys) && IsOrder(o2, lists.Keys)
    ensures Publish(lists, o1) == Publish(lists, o2)
  {
    var c1, c2 := Collect(lists, o1), Collect(lists, o2);
    SortIsStable(c1);
    SortIsStable(c2);
    forall k
      ensures Class(Sort(c1), k) == Class(Sort(c2), k)
    {
      var p := KeyOwner(lists, k);
      CollectClass(lists, o1, p, k);
      CollectClass(lists, o2, p, k);
      assert Class(c1, k) == Class(Sort(c1), k) && Class(c2, k) == Class(Sort(c2), k);
    }
    SortedUnique(Sort(c1), Sort(c2));
  }

  lemma {:induction false} SomeOrder(keys: set<string>) returns (order: seq<string>)
    ensures IsOrder(order, keys)
    decreases |keys|
  {
    order := [];
    if p :| p in keys {
      order := SomeOrder(keys - {p});
      order := [p] + order;
    }
  }

  // With a tie between p and q, iterating p first and iterating q first publish different snapshots.
  lemma TiesShow(lists: Lists, p: string, q: string, x: Extension, y: Extension)
    returns (o1: seq<string>, o2: seq<string>)
    requires Owned(lists) && p in lists && q in lists && p != q && x in lists[p] && y in lists[q] && x.key == y.key
    ensures IsOrder(o1, lists.Keys) && IsOrder(o2, lists.Keys) && Publish(lists, o1) != Publish(lists, o2)
  {
    hide Class, Collect, Publish, Owned;
    o1, o2 := TwoOrders(lists.Keys, p, q);
    FirstOfClass(lists, o1, x);
    FirstOfClass(lists, o2, y);
    PublishKeepsClass(lists, o1, x.key);
    PublishKeepsClass(lists, o2, x.key);
  }

  lemma PublishKeepsClass(lists: Lists, order: seq<string>, k: Key)
    requires forall p :: p in order ==> p in lists
    ensures Class(Collect(lists, order), k) == Class(Publish(lists, order), k)
  {
    hide Class, Collect;
    SortIsStable(Collect(lists, order));
  }

  lemma TwoOrders(keys: set<string>, p: string, q: string) returns (o1: seq<string>, o2: seq<string>)
    requires p in keys && q in keys && p != q
    ensures IsOrder(o1, keys) && IsOrder(o2, keys) && o1 != [] && o2 != [] && o1[0] == p && o2[0] == q
  {
    var rest := SomeOrder(keys - {p, q});
    o1, o2 := [p, q] + rest, [q, p] + rest;
  }

  lemma FirstOfClass(lists: Lists, order: seq<string>, x: Extension)
    requires (forall r :: r in order ==> r in lists) && order != [] && Owned(lists) && x in lists[order[0]]
    ensures var c := Class(Collect(lists, order), x.key); c != [] && c[0].pluginId == order[0]
  {
    ClassConcat(lists[order[0]], Collect(lists, order[1..]), x.key);
    ClassMembers(lists[order[0]], x.key);
  }

  ghost predicate Deterministic(lists: Lists) {
    forall o1, o2 :: IsOrder(o1, lists.Keys) && IsOrder(o2, lists.Keys) ==> Publish(lists, o1) == Publish(lists, o2)
  }

  // A published list is independent of map iteration order exactly when no two plugins tie. Handler
  // lists always are; the provider list is only when types, priorities and names differ across plugins.
  lemma PublicationIsDeterministic(lists: Lists)
    requires Owned(lists)
    ensures Deterministic(lists) <==> NoCrossTies(lists)
    ensures HandlerLists(lists) ==> Deterministic(lists)
  {
    if NoCrossTies(lists) {
      forall o1, o2 | IsOrder(o1, lists.Keys) && IsOrder(o2, lists.Keys)
        ensures Publish(lists, o1) == Publish(lists, o2)
      {
        PublishIgnoresOrder(lists, o1, o2);
      }
    } else {
      var p, q, x, y :| p in lists && q in lists && p != q && x in lists[p] && y in lists[q] && x.key == y.key;
      var o1, o2 := TiesShow(lists, p, q, x, y);
    }
  }

  // ---------------------------------------------------------------- regrouping and removal

  function OfPlugins(xs: seq<Extension>, keep: set<string>): seq<Extension> {
    if xs == [] then []
    else (if xs[0].pluginId in keep then [xs[0]] else []) + OfPlugins(xs[1..], keep)
  }

  function Plugins(xs: seq<Extension>): set<string> {
    set e | e in xs :: e.pluginId
  }

  // A published list regrouped by plugin, for the given plugins.
  function Regrouped(xs: seq<Extension>, plugins: set<string>): Lists {
    map p | p in plugins :: OfPlugins(xs, {p})
  }

  // The list without one plugin's entries.
  function Without(xs: seq<Extension>, pluginId: string): seq<Extension> {
    if xs == [] then []
    else (if xs[0].pluginId == pluginId then [] else [xs[0]]) + Without(xs[1..], pluginId)
  }

  // Entries that compare equal belong to one plugin.
  predicate TiesStayInside(xs: seq<Extension>) {
    forall x, y :: x in xs && y in xs && x.key == y.key ==> x.pluginId == y.pluginId
  }

  lemma {:induction false} OfPluginsMembers(xs: seq<Extension>, keep: set<string>)
    ensures forall e :: e in OfPlugins(xs, keep) <==> e in xs && e.pluginId in keep
  {
    if xs != [] {
      OfPluginsMembers(xs[1..], keep);
      assert xs == [xs[0]] + xs[1..];
    }
  }

  lemma {:induction false} OfPluginsSorted(xs: seq<Extension>, keep: set<string>)
    requires Sorted(xs)
    ensures Sorted(OfPlugins(xs, keep))
  {
    if xs != [] {
      OfPluginsSorted(xs[1..], keep);
      OfPluginsMembers(xs[1..], keep);
      if xs[0].pluginId in keep {
        SortedTail(xs[0], OfPlugins(xs[1..], keep));
      }
    }
  }

  // Filtering by plugin keeps a class whole or removes it whole.
  lemma {:induction false} OfPluginsClass(xs: seq<Extension>, keep: set<string>, k: Key, owner: string)
    requires forall e :: e in xs && e.key == k ==> e.pluginId == owner
    ensures Class(OfPlugins(xs, keep), k) == if owner in keep then Class(xs, k) else []
  {
    if xs != [] {
      assert xs == [xs[0]] + xs[1..];
      OfPluginsClass(xs[1..], keep, k, owner);
      ClassConcat(if xs[0].pluginId in keep then [xs[0]] else [], OfPlugins(xs[1..], keep), k);
    }
  }

  lemma OwnerInList(xs: seq<Extension>, k: Key) returns (owner: string)
    requires TiesStayInside(xs)
    ensures forall e :: e in xs && e.key == k ==> e.pluginId == owner
  {
    if x :| x in xs && x.key == k {
      owner := x.pluginId;
    } else {
      owner := "";
    }
  }

  // Regrouping a sorted list by plugin and publishing any selection of the plugins, in any iteration
  // order, yields exactly the old list restricted to that selection.
  lemma Republish(xs: seq<Extension>, keep: set<string>, order: seq<string>)
    requires Sorted(xs) && TiesStayInside(xs) && IsOrder(order, keep)
    ensures Publish(Regrouped(xs, keep), order) == OfPlugins(xs, keep)
  {
    var lists := Regrouped(xs, keep);
    var collected := Collect(lists, order);
    SortIsStable(collected);
    OfPluginsSorted(xs, keep);
    forall k
      ensures Class(Sort(collected), k) == Class(OfPlugins(xs, keep), k)
    {
      var owner := OwnerInList(xs, k);
      OfPluginsClass(xs, keep, k, owner);
      forall p | p in lists
        ensures Class(lists[p], k) == if owner == p then Class(xs, k) else []
      {
        OfPluginsClass(xs, {p}, k, owner);
      }
      CollectClass(lists, order, owner, k);
      assert Class(collected, k) == Class(Sort(collected), k);
    }
    SortedUnique(Sort(collected), OfPlugins(xs, keep));
  }

  lemma {:induction false} OfPluginsTwice(xs: seq<Extension>, keep: set<string>, p: string)
    requires p in keep
    ensures OfPlugins(OfPlugins(xs, keep), {p}) == OfPlugins(xs, {p})
  {
    if xs != [] {
      OfPluginsTwice(xs[1..], keep, p);
      if xs[0].pluginId in keep {
        assert OfPlugins(xs, keep)[1..] == OfPlugins(xs[1..], keep);
      } else {
        assert OfPlugins(xs, keep) == OfPlugins(xs[1..], keep);
        assert OfPlugins(xs, {p}) == OfPlugins(xs[1..], {p});
      }
    }
  }

  lemma SelectionStays(xs: seq<Extension>, keep: set<string>)
    ensures Regrouped(OfPlugins(xs, keep), keep) == Regrouped(xs, keep)
    ensures OfPlugins(OfPlugins(xs, keep), keep) == OfPlugins(xs, keep)
  {
    forall p | p in keep
      ensures OfPlugins(OfPlugins(xs, keep), {p}) == OfPlugins(xs, {p})
    {
      OfPluginsTwice(xs, keep, p);
    }
    OfPluginsMembers(xs, keep);
    KeepAll(OfPlugins(xs, keep), keep);
  }

  ghost predicate RepublishedInOrder(xs: seq<Extension>, keep: set<string>) {
    forall order :: IsOrder(order, keep) ==> Publish(Regrouped(xs, keep), order) == OfPlugins(xs, keep)
  }

  // Every iteration order republishes the selection as it was exactly when no two plugins of the
  // selection tie.
  lemma RepublishIsExact(xs: seq<Extension>, keep: set<string>)
    requires Sorted(xs)
    ensures RepublishedInOrder(xs, keep) <==> TiesStayInside(OfPlugins(xs, keep))
  {
    var ys := OfPlugins(xs, keep);
    SelectionStays(xs, keep);
    OfPluginsSorted(xs, keep);
    if TiesStayInside(ys) {
      forall order | IsOrder(order, keep)
        ensures Publish(Regrouped(xs, keep), order) == OfPlugins(xs, keep)
      {
        Republish(ys, keep, order);
      }
    } else {
      var x, y :| x in ys && y in ys && x.key == y.key && x.pluginId != y.pluginId;
      OfPluginsMembers(xs, keep);
      RegroupedMembers(ys, keep);
      var o1, o2 := TiesShow(Regrouped(ys, keep), x.pluginId, y.pluginId, x, y);
      assert IsOrder(o1, keep) && IsOrder(o2, keep);
    }
  }

  lemma RegroupedMembers(xs: seq<Extension>, keep: set<string>)
    ensures Owned(Regrouped(xs, keep))
    ensures forall e :: e in xs && e.pluginId in keep ==> e in Regrouped(xs, keep)[e.pluginId]
  {
    forall p | p in keep
      ensures forall e :: e in OfPlugins(xs, {p}) <==> e in xs && e.pluginId in {p}
    {
      OfPluginsMembers(xs, {p});
    }
  }

  lemma {:induction false} KeepAllBut(xs: seq<Extension>, keep: set<string>, removed: string)
    requires removed !in keep && forall e :: e in xs && e.pluginId != removed ==> e.pluginId in keep
    ensures OfPlugins(xs, keep) == Without(xs, removed)
  {
    if xs != [] {
      assert xs == [xs[0]] + xs[1..];
      KeepAllBut(xs[1..], keep, removed);
    }
  }

  lemma {:induction false} KeepAll(xs: seq<Extension>, keep: set<string>)
    requires forall e :: e in xs ==> e.pluginId in keep
    ensures OfPlugins(xs, keep) == xs
  {
    if xs != [] {
      assert xs == [xs[0]] + xs[1..];
      KeepAll(xs[1..], keep);
    }
  }

  lemma {:induction false} CollectMembers(lists: Lists, order: seq<string>)
    requires forall p :: p in order ==> p in lists
    ensures forall e :: e in Collect(lists, order) ==> exists p :: p in order && e in lists[p]
    decreases |order|
  {
    if order != [] {
      CollectMembers(lists, order[1..]);
      assert order == [order[0]] + order[1..];
      forall e | e in Collect(lists, order)
        ensures exists p :: p in order && e in lists[p]
      {
        if e in lists[order[0]] {
          assert order[0] in order;
        } else {
          assert e in Collect(lists, order[1..]);
          var p :| p in order[1..] && e in lists[p];
          assert p in order;
        }
      }
    }
  }

  // What publishing establishes about the snapshot.
  lemma PublishedShape(lists: Lists, order: seq<string>)
    requires Owned(lists) && NoCrossTies(lists) && IsOrder(order, lists.Keys)
    ensures Published(Publish(lists, order))
  {
    var collected := Collect(lists, order);
    SortIsStable(collected);
    CollectMembers(lists, order);
    forall x, y | x in Sort(collected) && y in Sort(collected) && x.key == y.key
      ensures x.pluginId == y.pluginId
    {
      ClassMembers(collected, x.key);
      ClassMembers(Sort(collected), x.key);
      assert Class(collected, x.key) == Class(Sort(collected), x.key);
      assert x in collected && y in collected;
    }
  }

  // ---------------------------------------------------------------- the manager's snapshot

  // One plugin's contribution: a handler list (routes, rules, statuses, middleware and subscribers are
  // treated alike) and its providers.
  datatype Extensions = Extensions(handlers: seq<Extension>, providers: seq<Extension>)

  function Handlers(byPlugin: map<string, Extensions>): Lists {
    map p | p in byPlugin :: byPlugin[p].handlers
  }

  function Providers(byPlugin: map<string, Extensions>): Lists {
    map p | p in byPlugin :: byPlugin[p].providers
  }

  lemma {:induction false} CollectAppend(lists: Lists, order: seq<string>, p: string)
    requires (forall q :: q in order ==> q in lists) && p in lists
    ensures Collect(lists, order + [p]) == Collect(lists, order) + lists[p]
    decreases |order|
  {
    if order == [] {
      assert order + [p] == [p];
    } else {
      assert (order + [p])[1..] == order[1..] + [p];
      CollectAppend(lists, order[1..], p);
    }
  }

  class ExtensionSnapshot {
    var handlers: seq<Extension>
    var providers: seq<Extension>

    constructor ()
      ensures handlers == [] && providers == []
    {
      handlers, providers := [], [];
    }

    // publishExtensionsLocked; order is the map's iteration order.
    method PublishExtensions(byPlugin: map<string, Extensions>, order: seq<string>)
      requires IsOrder(order, byPlugin.Keys)
      modifies this
      ensures handlers == Publish(Handlers(byPlugin), order)
      ensures providers == Publish(Providers(byPlugin), order)
      ensures Sorted(handlers) && Sorted(providers)
    {
      var hs: seq<Extension>, ps: seq<Extension> := [], [];
      for i := 0 to |order|
        invariant hs == Collect(Handlers(byPlugin), order[..i])
        invariant ps == Collect(Providers(byPlugin), order[..i])
      {
        assert order[..i + 1] == order[..i] + [order[i]];
        CollectAppend(Handlers(byPlugin), order[..i], order[i]);
        CollectAppend(Providers(byPlugin), order[..i], order[i]);
        hs := hs + byPlugin[order[i]].handlers;
        ps := ps + byPlugin[order[i]].providers;
      }
      assert order[..|order|] == order;
      handlers := Sort(hs);
      providers := Sort(ps);
      SortIsStable(hs);
      SortIsStable(ps);
    }

    // currentExtensionsLocked.
    method CurrentExtensions() returns (current: map<string, Extensions>)
      ensures current == Grouped(handlers, providers)
    {
      current := map[];
      assert handlers[..0] == [] && providers[..0] == [];
      for i := 0 to |handlers|
        invariant current == Grouped(handlers[..i], [])
      {
        var e := handlers[i];
        GroupHandler(handlers[..i], [], e);
        assert handlers[..i + 1] == handlers[..i] + [e];
        var ext := Lookup(current, e.pluginId);
        current := current[e.pluginId := ext.(handlers := ext.handlers + [e])];
      }
      assert handlers[..|handlers|] == handlers;
      for i := 0 to |providers|
        invariant current == Grouped(handlers, providers[..i])
      {
        var e := providers[i];
        GroupProvider(handlers, providers[..i], e);
        assert providers[..i + 1] == providers[..i] + [e];
        var ext := Lookup(current, e.pluginId);
        current := current[e.pluginId := ext.(providers := ext.providers + [e])];
      }
      assert providers[..|providers|] == providers;
    }

    // Publishing the current extensions again: no list without a tie between plugins changes,
    // whatever the iteration order.
    method Refresh(order: seq<string>)
      requires IsOrder(order, Grouped(handlers, providers).Keys)
      requires Sorted(handlers) && Sorted(providers)
      modifies this
      ensures Sorted(handlers) && Sorted(providers)
      ensures TiesStayInside(old(handlers)) ==> handlers == old(handlers)
      ensures TiesStayInside(old(providers)) ==> providers == old(providers)
    {
      hide Grouped, IsOrder, Publish, TiesStayInside;
      var current := CurrentExtensions();
      PublishCurrent(handlers, providers, order);
      PublishExtensions(current, order);
    }

    // removeExtensionsLocked: exactly the old list without the plugin's entries, when no two of the
    // plugins that stay tie in it.
    method RemoveExtensions(pluginId: string, order: seq<string>)
      requires IsOrder(order, (Grouped(handlers, providers) - {pluginId}).Keys)
      requires Sorted(handlers) && Sorted(providers)
      modifies this
      ensures Sorted(handlers) && Sorted(providers)
      ensures TiesStayInside(Without(old(handlers), pluginId)) ==> handlers == Without(old(handlers), pluginId)
      ensures TiesStayInside(Without(old(providers), pluginId)) ==> providers == Without(old(providers), pluginId)
    {
      hide Grouped, IsOrder, Publish, TiesStayInside, Without;
      var current := CurrentExtensions();
      PublishRemaining(handlers, providers, pluginId, order);
      PublishExtensions(current - {pluginId}, order);
    }
  }

  function Lookup(current: map<string, Extensions>, p: string): Extensions {
    if p in current then current[p] else Extensions([], [])
  }

  function Grouped(handlers: seq<Extension>, providers: seq<Extension>): map<string, Extensions> {
    map p | p in Plugins(handlers) + Plugins(providers) ::
      Extensions(OfPlugins(handlers, {p}), OfPlugins(providers, {p}))
  }

  // A list whose entries are sorted and tie only inside a plugin: what publishing leaves behind.
  predicate Published(xs: seq<Extension>) {
    Sorted(xs) && TiesStayInside(xs)
  }

  lemma WithoutPublished(xs: seq<Extension>, removed: string)
    requires Published(xs)
    ensures Published(Without(xs, removed))
    ensures forall e :: e in Without(xs, removed) <==> e in xs && e.pluginId != removed
  {
    var keep := Plugins(xs) - {removed};
    KeepAllBut(xs, keep, removed);
    OfPluginsSorted(xs, keep);
    OfPluginsMembers(xs, keep);
  }

  // Publishing what is left of the current extensions, list by list.
  lemma PublishGrouped(handlers: seq<Extension>, providers: seq<Extension>, removed: set<string>, order: seq<string>)
    requires Sorted(handlers) && Sorted(providers)
    requires IsOrder(order, (Grouped(handlers, providers) - removed).Keys)
    ensures var current := Grouped(handlers, providers) - removed;
            var hs, ps := OfPlugins(handlers, current.Keys), OfPlugins(providers, current.Keys);
            && (TiesStayInside(hs) ==> Publish(Handlers(current), order) == hs)
            && (TiesStayInside(ps) ==> Publish(Providers(current), order) == ps)
  {
    var current := Grouped(handlers, providers) - removed;
    assert Handlers(current) == Regrouped(handlers, current.Keys);
    assert Providers(current) == Regrouped(providers, current.Keys);
    RepublishIsExact(handlers, current.Keys);
    RepublishIsExact(providers, current.Keys);
  }

  // Publishing the current extensions changes no list without cross-plugin ties.
  lemma PublishCurrent(handlers: seq<Extension>, providers: seq<Extension>, order: seq<string>)
    requires Sorted(handlers) && Sorted(providers)
    requires IsOrder(order, Grouped(handlers, providers).Keys)
    ensures TiesStayInside(handlers) ==> Publish(Handlers(Grouped(handlers, providers)), order) == handlers
    ensures TiesStayInside(providers) ==> Publish(Providers(Grouped(handlers, providers)), order) == providers
  {
    var current := Grouped(handlers, providers);
    assert current - {} == current;
    PublishGrouped(handlers, providers, {}, order);
    KeepAll(handlers, current.Keys);
    KeepAll(providers, current.Keys);
  }

  // Removing a plugin leaves each list filtered, unless two of the plugins that stay tie in it.
  lemma PublishRemaining(handlers: seq<Extension>, providers: seq<Extension>, removed: string, order: seq<string>)
    requires Sorted(handlers) && Sorted(providers)
    requires IsOrder(order, (Grouped(handlers, providers) - {removed}).Keys)
    ensures var current := Grouped(handlers, providers) - {removed};
            var hs, ps := Without(handlers, removed), Without(providers, removed);
            && (TiesStayInside(hs) ==> Publish(Handlers(current), order) == hs)
            && (TiesStayInside(ps) ==> Publish(Providers(current), order) == ps)
  {
    hide TiesStayInside, Publish, IsOrder, Sorted;
    var current := Grouped(handlers, providers) - {removed};
    PublishGrouped(handlers, providers, {removed}, order);
    KeepAllBut(handlers, current.Keys, removed);
    KeepAllBut(providers, current.Keys, removed);
  }

  function Only(x: Extension, keep: set<string>): seq<Extension> {
    if x.pluginId in keep then [x] else []
  }

  lemma OfPluginsCons(x: Extension, xs: seq<Extension>, keep: set<string>)
    ensures OfPlugins([x] + xs, keep) == Only(x, keep) + OfPlugins(xs, keep)
  {
    assert ([x] + xs)[1..] == xs;
  }

  lemma Associative(a: seq<Extension>, b: seq<Extension>, c: seq<Extension>)
    ensures (a + b) + c == a + (b + c)
  {
  }

  lemma {:induction false} OfPluginsAppend(xs: seq<Extension>, x: Extension, keep: set<string>)
    ensures OfPlugins(xs + [x], keep) == OfPlugins(xs, keep) + Only(x, keep)
  {
    if xs == [] {
      assert xs + [x] == [x] && [x][1..] == [];
    } else {
      OfPluginsAppend(xs[1..], x, keep);
      OfPluginsCons(xs[0], xs[1..], keep);
      OfPluginsCons(xs[0], xs[1..] + [x], keep);
      assert [xs[0]] + xs[1..] == xs && [xs[0]] + (xs[1..] + [x]) == xs + [x];
      hide OfPlugins;
      Associative(Only(xs[0], keep), OfPlugins(xs[1..], keep), Only(x, keep));
    }
  }

  lemma {:induction false} NoneOfPlugin(xs: seq<Extension>, p: string)
    requires p !in Plugins(xs)
    ensures OfPlugins(xs, {p}) == []
  {
    if xs != [] {
      assert xs[0] in xs;
      assert forall e :: e in xs[1..] ==> e in xs;
      NoneOfPlugin(xs[1..], p);
    }
  }

  lemma OfPluginAppend(xs: seq<Extension>, x: Extension, p: string)
    ensures OfPlugins(xs + [x], {p}) == OfPlugins(xs, {p}) + (if p == x.pluginId then [x] else [])
    ensures p !in Plugins(xs) ==> OfPlugins(xs, {p}) == []
    ensures Plugins(xs + [x]) == Plugins(xs) + {x.pluginId}
  {
    OfPluginsAppend(xs, x, {p});
    if p !in Plugins(xs) {
      NoneOfPlugin(xs, p);
    }
  }

  lemma GroupHandler(handlers: seq<Extension>, providers: seq<Extension>, e: Extension)
    ensures var before := Grouped(handlers, providers);
            var ext := Lookup(before, e.pluginId);
            Grouped(handlers + [e], providers) == before[e.pluginId := ext.(handlers := ext.handlers + [e])]
  {
    var before := Grouped(handlers, providers);
    var ext := Lookup(before, e.pluginId);
    var grown := before[e.pluginId := ext.(handlers := ext.handlers + [e])];
    var after := Grouped(handlers + [e], providers);
    OfPluginAppend(handlers, e, e.pluginId);
    if e.pluginId !in Plugins(providers) {
      NoneOfPlugin(providers, e.pluginId);
    }
    assert after.Keys == grown.Keys;
    forall p | p in grown
      ensures after[p] == grown[p]
    {
      OfPluginAppend(handlers, e, p);
    }
  }

  lemma GroupProvider(handlers: seq<Extension>, providers: seq<Extension>, e: Extension)
    ensures var before := Grouped(handlers, providers);
            var ext := Lookup(before, e.pluginId);
            Grouped(handlers, providers + [e]) == before[e.pluginId := ext.(providers := ext.providers + [e])]
  {
    var before := Grouped(handlers, providers);
    var ext := Lookup(before, e.pluginId);
    var grown := before[e.pluginId := ext.(providers := ext.providers + [e])];
    var after := Grouped(handlers, providers + [e]);
    OfPluginAppend(providers, e, e.pluginId);
    if e.pluginId !in Plugins(handlers) {
      NoneOfPlugin(handlers, e.pluginId);
    }
    assert after.Keys == grown.Keys;
    forall p | p in grown
      ensures after[p] == grown[p]
    {
      OfPluginAppend(providers, e, p);
    }
  }
}
