/** Seeding twice is seeding once. */
module SeedingLaws {
  import opened Common
  import opened Seeding

  // ---- channels ----

  lemma {:induction false} ChannelsFound(db: Db, names: seq<string>)
    ensures forall n :: n in names ==> FindChannel(SyncChannels(db, names).channels, n).Some?
  {
    if names != [] {
      var pre, last := names[..|names| - 1], names[|names| - 1];
      ChannelsFound(db, pre);
      var mid := SyncChannels(db, pre);
      assert names == pre + [last];
      forall n | n in names ensures FindChannel(SyncChannels(db, names).channels, n).Some? {
        FindAppended(mid.channels, Channel(mid.nextId, last), n);
      }
    }
  }

  lemma {:induction false} ChannelsSettled(db: Db, names: seq<string>)
    requires forall n :: n in names ==> FindChannel(db.channels, n).Some?
    ensures SyncChannels(db, names) == db
  {
    if names != [] {
      assert names == names[..|names| - 1] + [names[|names| - 1]];
      ChannelsSettled(db, names[..|names| - 1]);
    }
  }

  // Syncing channels touches nothing else.
  lemma {:induction false} ChannelsFrame(db: Db, names: seq<string>)
    ensures var a := SyncChannels(db, names);
            a.targets == db.targets && a.pages == db.pages && a.components == db.components && a.nextId >= db.nextId
  {
    if names != [] {
      ChannelsFrame(db, names[..|names| - 1]);
    }
  }

  // ---- targets ----

  lemma TargetIdsNext(targets: seq<Target>, t: Target)
    ensures TargetIds(targets + [t]) == TargetIds(targets)[t.name := t.id]
  {
    assert (targets + [t])[..|targets|] == targets;
  }

  lemma {:induction false} TargetsFound(db: Db, ids: map<string, nat>, ts: seq<SeedTarget>)
    ensures forall i :: 0 <= i < |ts| ==> ts[i].name in TargetIds(SyncTargets(db, ids, ts).targets)
  {
    if ts != [] {
      var pre, t := ts[..|ts| - 1], ts[|ts| - 1];
      TargetsFound(db, ids, pre);
      var mid := SyncTargets(db, ids, pre);
      TargetIdsNext(mid.targets, Target(mid.nextId, t.name, Alerts(ids, t.channelNames)));
    }
  }

  lemma {:induction false} TargetsFrame(db: Db, ids: map<string, nat>, ts: seq<SeedTarget>)
    requires Wf(db)
    ensures var b := SyncTargets(db, ids, ts);
            && b.channels == db.channels && b.pages == db.pages && b.components == db.components
            && b.nextId >= db.nextId && Wf(b)
  {
    hide SyncTarget, Wf;
    if ts != [] {
      TargetsFrame(db, ids, ts[..|ts| - 1]);
      TargetFrame(SyncTargets(db, ids, ts[..|ts| - 1]), ids, ts[|ts| - 1]);
    }
  }

  lemma TargetFrame(db: Db, ids: map<string, nat>, t: SeedTarget)
    requires Wf(db)
    ensures var b := SyncTarget(db, ids, t);
            && b.channels == db.channels && b.pages == db.pages && b.components == db.components
            && b.nextId >= db.nextId && Wf(b)
  {
    hide TargetIds, Alerts;
  }

  lemma {:induction false} TargetsSettled(db: Db, ids: map<string, nat>, ts: seq<SeedTarget>)
    requires forall i :: 0 <= i < |ts| ==> ts[i].name in TargetIds(db.targets)
    ensures SyncTargets(db, ids, ts) == db
  {
    if ts != [] {
      TargetsSettled(db, ids, ts[..|ts| - 1]);
    }
  }

  ghost predicate Ready(db: Db, cfg: Config) {
    && (forall n :: n in cfg.channels ==> FindChannel(db.channels, n).Some?)
    && (forall i :: 0 <= i < |cfg.targets| ==> cfg.targets[i].name in TargetIds(db.targets))
  }

  lemma PreparedIsReady(db: Db, cfg: Config)
    requires Wf(db)
    ensures var b := Prepared(db, cfg);
            Ready(b, cfg) && Wf(b) && b.pages == db.pages && b.components == db.components
  {
    var a := SyncChannels(db, cfg.channels);
    ChannelsFound(db, cfg.channels);
    ChannelsFrame(db, cfg.channels);
    TargetsFound(a, ChannelIds(a.channels, cfg.channels), cfg.targets);
    TargetsFrame(a, ChannelIds(a.channels, cfg.channels), cfg.targets);
  }

  lemma ReadyIsPrepared(db: Db, cfg: Config)
    requires Ready(db, cfg)
    ensures Prepared(db, cfg) == db
  {
    ChannelsSettled(db, cfg.channels);
    TargetsSettled(db, ChannelIds(db.channels, cfg.channels), cfg.targets);
  }

  // Different names stand for different targets.
  lemma {:induction false} IdsNameTargets(targets: seq<Target>, n: string)
    requires n in TargetIds(targets)
    ensures exists i :: 0 <= i < |targets| && targets[i].name == n && targets[i].id == TargetIds(targets)[n]
  {
    var t := targets[|targets| - 1];
    if t.name != n {
      IdsNameTargets(targets[..|targets| - 1], n);
      var i :| 0 <= i < |targets| - 1 && targets[..|targets| - 1][i].name == n
               && targets[..|targets| - 1][i].id == TargetIds(targets[..|targets| - 1])[n];
      assert targets[i].name == n;
    }
  }

  /** Of several targets with one name the newest counts, and likewise for pages with one
      slug. */
  lemma {:induction false} NewestNameCounts(targets: seq<Target>, i: nat)
    requires i < |targets| && forall j :: i < j < |targets| ==> targets[j].name != targets[i].name
    ensures targets[i].name in TargetIds(targets) && TargetIds(targets)[targets[i].name] == targets[i].id
  {
    if i < |targets| - 1 {
      NewestNameCounts(targets[..|targets| - 1], i);
    }
  }

  lemma {:induction false} NewestSlugCounts(pages: seq<Page>, i: nat)
    requires i < |pages| && forall j :: i < j < |pages| ==> pages[j].slug != pages[i].slug
    ensures pages[i].slug in Slugs(pages) && Slugs(pages)[pages[i].slug] == pages[i].id
  {
    if i < |pages| - 1 {
      NewestSlugCounts(pages[..|pages| - 1], i);
    }
  }

  lemma IdsAreInjective(db: Db, n: string, m: string)
    requires Wf(db) && n in TargetIds(db.targets) && m in TargetIds(db.targets)
    requires TargetIds(db.targets)[n] == TargetIds(db.targets)[m]
    ensures n == m
  {
    IdsNameTargets(db.targets, n);
    IdsNameTargets(db.targets, m);
  }

  // ---- bindings ----

  ghost predicate Known(order: seq<string>, ids: map<string, nat>) { forall n :: n in order ==> n in ids }

  ghost predicate IsBound(key: (nat, nat), page: nat, order: seq<string>, ids: map<string, nat>)
    requires Known(order, ids)
  {
    exists i :: 0 <= i < |order| && key == (page, ids[order[i]])
  }

  // After binding, the i-th named target has number i.
  lemma {:induction false} BindNumbers(components: Bindings, page: nat, order: seq<string>,
                                       ids: map<string, nat>, ts: seq<SeedTarget>, i: nat)
    requires Known(order, ids) && i < |order|
    requires forall i, j :: 0 <= i < j < |order| ==> ids[order[i]] != ids[order[j]]
    ensures var after, key := Bind(components, page, order, ids, ts), (page, ids[order[i]]);
            key in after && after[key] == Template(ids, order[i], ts, i)
  {
    hide GroupOf;
    var k := |order| - 1;
    assert order[k] in order;
    if i < k {
      BindNumbers(components, page, order[..k], ids, ts, i);
    }
  }

  // Binding touches no other key.
  lemma {:induction false} BindKeeps(components: Bindings, page: nat, order: seq<string>,
                                     ids: map<string, nat>, ts: seq<SeedTarget>, key: (nat, nat))
    requires Known(order, ids) && !IsBound(key, page, order, ids)
    ensures var after := Bind(components, page, order, ids, ts);
            && (key in after <==> key in components)
            && (key in components ==> after[key] == components[key])
  {
    hide GroupOf;
    if order != [] {
      var k := |order| - 1;
      assert order[k] in order && key != (page, ids[order[k]]);
      assert forall i :: 0 <= i < k ==> order[..k][i] == order[i];
      BindKeeps(components, page, order[..k], ids, ts, key);
    }
  }

  // ---- pages ----

  // Every known target is bound to the page, up to its number.
  ghost predicate Covers(components: Bindings, page: nat, ids: map<string, nat>, ts: seq<SeedTarget>) {
    forall n :: n in ids ==> IsBoundTo(components, page, ids, n, ts)
  }

  ghost predicate IsBoundTo(components: Bindings, page: nat, ids: map<string, nat>, n: string, ts: seq<SeedTarget>)
    requires n in ids
  {
    var key := (page, ids[n]);
    key in components && components[key] == Template(ids, n, ts, components[key].sortOrder)
  }

  ghost predicate Separated(order: seq<string>, ids: map<string, nat>)
    requires Known(order, ids)
  {
    forall i, j :: 0 <= i < j < |order| ==> ids[order[i]] != ids[order[j]]
  }

  lemma OrderIsSeparated(db: Db, order: seq<string>)
    requires Wf(db) && Enumerates(order, TargetIds(db.targets))
    ensures Known(order, TargetIds(db.targets)) && Separated(order, TargetIds(db.targets))
  {
    var ids := TargetIds(db.targets);
    forall i, j | 0 <= i < j < |order| ensures ids[order[i]] != ids[order[j]] {
      if ids[order[i]] == ids[order[j]] {
        IdsAreInjective(db, order[i], order[j]);
      }
    }
  }

  lemma BindCovers(components: Bindings, page: nat, order: seq<string>, ids: map<string, nat>, ts: seq<SeedTarget>)
    requires Enumerates(order, ids) && Known(order, ids) && Separated(order, ids)
    ensures Covers(Bind(components, page, order, ids, ts), page, ids, ts)
  {
    hide Bind;
    forall n | n in ids ensures IsBoundTo(Bind(components, page, order, ids, ts), page, ids, n, ts) {
      var i :| 0 <= i < |order| && order[i] == n;
      BindNumbers(components, page, order, ids, ts, i);
    }
  }

  // Binding one page leaves another covered.
  lemma BindKeepsCover(components: Bindings, page: nat, order: seq<string>, ids: map<string, nat>,
                       ts: seq<SeedTarget>, other: nat)
    requires Enumerates(order, ids) && Known(order, ids) && Separated(order, ids) && Covers(components, other, ids, ts)
    ensures Covers(Bind(components, page, order, ids, ts), other, ids, ts)
  {
    hide Bind;
    if page == other {
      BindCovers(components, page, order, ids, ts);
    } else {
      forall n | n in ids ensures IsBoundTo(Bind(components, page, order, ids, ts), other, ids, n, ts) {
        assert IsBoundTo(components, other, ids, n, ts);
        BindKeeps(components, page, order, ids, ts, (other, ids[n]));
      }
    }
  }

  // Two component tables that differ at most in numbering.
  ghost predicate SameUpToOrder(a: Bindings, b: Bindings) {
    && a.Keys == b.Keys
    && forall key :: key in a ==> SameBinding(a[key], b[key])
  }

  predicate SameBinding(a: Component, b: Component) { a == b.(sortOrder := a.sortOrder) }

  // Binding a covered page again only renumbers.
  lemma RebindRenumbers(components: Bindings, page: nat, order: seq<string>, ids: map<string, nat>, ts: seq<SeedTarget>)
    requires Enumerates(order, ids) && Known(order, ids) && Separated(order, ids) && Covers(components, page, ids, ts)
    ensures SameUpToOrder(components, Bind(components, page, order, ids, ts))
  {
    hide Bind;
    var after := Bind(components, page, order, ids, ts);
    forall key ensures key in after <==> key in components
               ensures key in components && key in after ==> SameBinding(components[key], after[key])
    {
      if IsBound(key, page, order, ids) {
        var i :| 0 <= i < |order| && key == (page, ids[order[i]]);
        BindNumbers(components, page, order, ids, ts, i);
        assert order[i] in order;
        assert IsBoundTo(components, page, ids, order[i], ts);
      } else {
        BindKeeps(components, page, order, ids, ts, key);
      }
    }
  }

  lemma SlugsNext(pages: seq<Page>, p: Page)
    ensures Slugs(pages + [p]) == Slugs(pages)[p.slug := p.id]
  {
    assert (pages + [p])[..|pages|] == pages;
  }

  // Every configured slug leads to a covered page.
  ghost predicate PagesDone(db: Db, ps: seq<SeedPage>, ts: seq<SeedTarget>) {
    forall i :: 0 <= i < |ps| ==> PageDone(db, ps[i].slug, ts)
  }

  ghost predicate PageDone(db: Db, slug: string, ts: seq<SeedTarget>) {
    slug in Slugs(db.pages) && Covers(db.components, Slugs(db.pages)[slug], TargetIds(db.targets), ts)
  }

  // While pages are synced, slugs known at the start keep their page.
  ghost predicate Extends(db: Db, slugs: map<string, nat>) {
    forall s :: s in slugs ==> s in Slugs(db.pages) && Slugs(db.pages)[s] == slugs[s]
  }

  lemma PageStep(db: Db, slugs: map<string, nat>, p: SeedPage, order: seq<string>, ts: seq<SeedTarget>)
    requires Enumerates(order, TargetIds(db.targets)) && Known(order, TargetIds(db.targets))
    requires Separated(order, TargetIds(db.targets)) && Extends(db, slugs)
    ensures var after := SyncPage(db, slugs, p, order, ts);
            && Extends(after, slugs) && PageDone(after, p.slug, ts)
            && forall s :: PageDone(db, s, ts) ==> PageDone(after, s, ts)
  {
    hide Bind, Covers;
    var ids, after := TargetIds(db.targets), SyncPage(db, slugs, p, order, ts);
    var page := if p.slug in slugs then slugs[p.slug] else db.nextId;
    SlugsNext(db.pages, Page(db.nextId, p.slug, p.name));
    BindCovers(db.components, page, order, ids, ts);
    forall s | PageDone(db, s, ts) ensures PageDone(after, s, ts) {
      BindKeepsCover(db.components, page, order, ids, ts, Slugs(db.pages)[s]);
    }
  }

  lemma {:induction false} PagesReached(db: Db, slugs: map<string, nat>, ps: seq<SeedPage>, order: seq<string>,
                                        ts: seq<SeedTarget>)
    requires Enumerates(order, TargetIds(db.targets)) && Known(order, TargetIds(db.targets))
    requires Separated(order, TargetIds(db.targets)) && Extends(db, slugs)
    ensures var after := SyncPages(db, slugs, ps, order, ts);
            Extends(after, slugs) && PagesDone(after, ps, ts)
  {
    hide PageDone, Extends, Separated, SyncPage;
    if ps != [] {
      var pre := ps[..|ps| - 1];
      PagesReached(db, slugs, pre, order, ts);
      PageStep(SyncPages(db, slugs, pre, order, ts), slugs, ps[|ps| - 1], order, ts);
    }
  }

  lemma SameUpToOrderTransitive(a: Bindings, b: Bindings, c: Bindings)
    requires SameUpToOrder(a, b) && SameUpToOrder(b, c)
    ensures SameUpToOrder(a, c)
  {
    forall key | key in a ensures SameBinding(a[key], c[key]) {
      assert SameBinding(a[key], b[key]) && SameBinding(b[key], c[key]);
    }
  }

  // Syncing pages that are all done only renumbers bindings.
  lemma {:induction false} PagesSettled(db: Db, ps: seq<SeedPage>, order: seq<string>, ts: seq<SeedTarget>)
    requires Enumerates(order, TargetIds(db.targets)) && Known(order, TargetIds(db.targets))
    requires Separated(order, TargetIds(db.targets)) && PagesDone(db, ps, ts)
    ensures var after := SyncPages(db, Slugs(db.pages), ps, order, ts);
            && after == db.(components := after.components)
            && SameUpToOrder(db.components, after.components)
            && forall s :: PageDone(db, s, ts) ==> PageDone(after, s, ts)
  {
    if ps != [] {
      hide Bind, Covers, Separated, SameUpToOrder;
      var pre, p, ids := ps[..|ps| - 1], ps[|ps| - 1], TargetIds(db.targets);
      PagesSettled(db, pre, order, ts);
      var mid := SyncPages(db, Slugs(db.pages), pre, order, ts);
      assert PageDone(db, p.slug, ts) && PageDone(mid, p.slug, ts);
      PageStep(mid, Slugs(db.pages), p, order, ts);
      RebindRenumbers(mid.components, Slugs(db.pages)[p.slug], order, ids, ts);
      SameUpToOrderTransitive(db.components, mid.components, SyncPages(db, Slugs(db.pages), ps, order, ts).components);
    } else {
      assert SameUpToOrder(db.components, db.components);
    }
  }

  // ---- the law ----

  /** A second sync of the same configuration creates no channel, target or page
      and changes bindings at most in their numbering, whatever order the hash map
      yields the targets in. */
  lemma SyncIsIdempotent(db: Db, cfg: Config, first: seq<string>, second: seq<string>)
    requires Wf(db)
    requires Enumerates(first, TargetIds(Prepared(db, cfg).targets))
    requires Enumerates(second, TargetIds(Prepared(db, cfg).targets))
    ensures var once := Sync(db, cfg, first);
            && Prepared(once, cfg) == once && once.targets == Prepared(db, cfg).targets
            && var twice := Sync(once, cfg, second);
               && twice == once.(components := twice.components)
               && SameUpToOrder(once.components, twice.components)
  {
    hide Bind, Separated, SameUpToOrder, PagesDone, Enumerates;
    var b := Prepared(db, cfg);
    var once := Sync(db, cfg, first);
    PreparedIsReady(db, cfg);
    ReadyAfterPages(b, cfg, first);
    OrderIsSeparated(b, first);
    OrderIsSeparated(b, second);
    PagesReached(b, Slugs(b.pages), cfg.pages, first, cfg.targets);
    PagesSettled(once, cfg.pages, second, cfg.targets);
  }

  lemma ReadyAfterPages(b: Db, cfg: Config, order: seq<string>)
    requires Ready(b, cfg) && Enumerates(order, TargetIds(b.targets))
    ensures Prepared(SyncPages(b, Slugs(b.pages), cfg.pages, order, cfg.targets), cfg)
         == SyncPages(b, Slugs(b.pages), cfg.pages, order, cfg.targets)
  {
    ReadyIsPrepared(SyncPages(b, Slugs(b.pages), cfg.pages, order, cfg.targets), cfg);
  }

  lemma {:induction false} ChannelsKept(db: Db, names: seq<string>)
    ensures db.channels <= SyncChannels(db, names).channels
    ensures forall c :: c in SyncChannels(db, names).channels && c !in db.channels ==> c.name in names
  {
    if names != [] {
      assert names == names[..|names| - 1] + [names[|names| - 1]];
      ChannelsKept(db, names[..|names| - 1]);
    }
  }

  // A target that seeding created comes from the first configured entry of its name and
  // alerts exactly its known channels.
  ghost predicate FromEntry(t: Target, ids: map<string, nat>, ts: seq<SeedTarget>) {
    exists i :: 0 <= i < |ts| && IsEntryOf(t, ids, ts, i)
  }

  ghost predicate IsEntryOf(t: Target, ids: map<string, nat>, ts: seq<SeedTarget>, i: nat)
    requires i < |ts|
  {
    && ts[i].name == t.name && t.alerts == Alerts(ids, ts[i].channelNames)
    && forall j :: 0 <= j < i ==> ts[j].name != t.name
  }

  lemma {:induction false} TargetsKept(db: Db, ids: map<string, nat>, ts: seq<SeedTarget>)
    ensures db.targets <= SyncTargets(db, ids, ts).targets
    ensures forall t :: t in SyncTargets(db, ids, ts).targets && t !in db.targets ==> FromEntry(t, ids, ts)
  {
    if ts != [] {
      var pre, n := ts[..|ts| - 1], |ts| - 1;
      TargetsKept(db, ids, pre);
      TargetsFound(db, ids, pre);
      hide TargetIds, Alerts;
      forall t | FromEntry(t, ids, pre) ensures FromEntry(t, ids, ts) {
        var i :| 0 <= i < |pre| && IsEntryOf(t, ids, pre, i);
        assert IsEntryOf(t, ids, ts, i);
      }
      var mid := SyncTargets(db, ids, pre);
      forall t | t in SyncTargets(db, ids, ts).targets && t !in db.targets ensures FromEntry(t, ids, ts) {
        if t !in mid.targets {
          assert forall j :: 0 <= j < n ==> pre[j] == ts[j];
          assert IsEntryOf(t, ids, ts, n);
        }
      }
    }
  }

  // A page that seeding created comes from a configured entry.
  ghost predicate FromPageEntry(p: Page, ps: seq<SeedPage>) {
    exists i :: 0 <= i < |ps| && ps[i].slug == p.slug && ps[i].name == p.name
  }

  lemma {:induction false} PagesKept(db: Db, slugs: map<string, nat>, ps: seq<SeedPage>, order: seq<string>,
                                     ts: seq<SeedTarget>)
    requires Known(order, TargetIds(db.targets))
    ensures var after := SyncPages(db, slugs, ps, order, ts);
            && db.pages <= after.pages
            && forall p :: p in after.pages && p !in db.pages ==> FromPageEntry(p, ps)
  {
    if ps != [] {
      hide Bind;
      var n := |ps| - 1;
      PagesKept(db, slugs, ps[..n], order, ts);
      var mid, after := SyncPages(db, slugs, ps[..n], order, ts), SyncPages(db, slugs, ps, order, ts);
      forall p | p in after.pages && p !in db.pages ensures FromPageEntry(p, ps) {
        if p in mid.pages {
          var i :| 0 <= i < n && ps[..n][i].slug == p.slug && ps[..n][i].name == p.name;
          assert ps[i].slug == p.slug;
        } else {
          assert ps[n].slug == p.slug && ps[n].name == p.name;
        }
      }
    }
  }

  ghost predicate SameAt(a: Bindings, b: Bindings, key: (nat, nat)) {
    (key in a <==> key in b) && (key in a ==> a[key] == b[key])
  }

  predicate Leads(pages: seq<Page>, slug: string, page: nat) { slug in Slugs(pages) && Slugs(pages)[slug] == page }

  // A page that a sync writes to: one that a configured slug led to at the start, or
  // one created on the way.
  ghost predicate IsSynced(before: seq<Page>, after: seq<Page>, ps: seq<SeedPage>, page: nat) {
    || (exists i :: 0 <= i < |ps| && Leads(before, ps[i].slug, page))
    || (exists j :: |before| <= j < |after| && after[j].id == page)
  }

  // The page that one sync step binds.
  function BoundPage(mid: Db, slugs: map<string, nat>, p: SeedPage): nat {
    if p.slug in slugs then slugs[p.slug] else mid.nextId
  }

  lemma SyncedStep(before: seq<Page>, mid: Db, ps: seq<SeedPage>, order: seq<string>, ts: seq<SeedTarget>, page: nat)
    requires Known(order, TargetIds(mid.targets)) && before <= mid.pages && ps != []
    ensures var n := |ps| - 1;
            var after := SyncPage(mid, Slugs(before), ps[n], order, ts);
            && mid.pages <= after.pages
            && (IsSynced(before, after.pages, ps, page)
                <==> page == BoundPage(mid, Slugs(before), ps[n]) || IsSynced(before, mid.pages, ps[..n], page))
  {
    hide Bind, Slugs;
    var n := |ps| - 1;
    var after := SyncPage(mid, Slugs(before), ps[n], order, ts);
    if i :| 0 <= i < n && Leads(before, ps[..n][i].slug, page) {
      assert Leads(before, ps[i].slug, page);
    }
    if i :| 0 <= i < |ps| && Leads(before, ps[i].slug, page) {
      assert i < n ==> Leads(before, ps[..n][i].slug, page);
    }
    if j :| |before| <= j < |mid.pages| && mid.pages[j].id == page {
      assert after.pages[j].id == page;
    }
    if j :| |before| <= j < |after.pages| && after.pages[j].id == page {
      assert j < |mid.pages| ==> mid.pages[j].id == page;
    }
    if page == BoundPage(mid, Slugs(before), ps[n]) {
      if ps[n].slug in Slugs(before) {
        assert Leads(before, ps[n].slug, page);
      } else {
        assert after.pages[|mid.pages|].id == page;
      }
    }
  }

  // Syncing touches only bindings of synced pages to known targets.
  lemma {:induction false} PagesFrame(db: Db, ps: seq<SeedPage>, order: seq<string>, ts: seq<SeedTarget>,
                                      key: (nat, nat))
    requires Known(order, TargetIds(db.targets))
    requires var after := SyncPages(db, Slugs(db.pages), ps, order, ts);
             !(IsSynced(db.pages, after.pages, ps, key.0) && key.1 in TargetIds(db.targets).Values)
    ensures SameAt(db.components, SyncPages(db, Slugs(db.pages), ps, order, ts).components, key)
  {
    if ps != [] {
      var n, ids, slugs := |ps| - 1, TargetIds(db.targets), Slugs(db.pages);
      var mid, after := SyncPages(db, slugs, ps[..n], order, ts), SyncPages(db, slugs, ps, order, ts);
      var page := BoundPage(mid, slugs, ps[n]);
      assert after == SyncPage(mid, slugs, ps[n], order, ts);
      assert after.components == Bind(mid.components, page, order, ids, ts);
      PagesKept(db, slugs, ps[..n], order, ts);
      SyncedStep(db.pages, mid, ps, order, ts, key.0);
      hide Bind, SyncPages, SyncPage, IsSynced, TargetIds, Slugs;
      PagesFrame(db, ps[..n], order, ts, key);
      BindKeeps(mid.components, page, order, ids, ts, key);
    }
  }

  // On a synced page every known target has the binding that seeding writes.
  lemma {:induction false} SyncedPagesCovered(db: Db, ps: seq<SeedPage>, order: seq<string>, ts: seq<SeedTarget>,
                                              page: nat)
    requires Enumerates(order, TargetIds(db.targets)) && Known(order, TargetIds(db.targets))
    requires Separated(order, TargetIds(db.targets))
    requires IsSynced(db.pages, SyncPages(db, Slugs(db.pages), ps, order, ts).pages, ps, page)
    ensures Covers(SyncPages(db, Slugs(db.pages), ps, order, ts).components, page, TargetIds(db.targets), ts)
  {
    if ps != [] {
      var n, ids, slugs := |ps| - 1, TargetIds(db.targets), Slugs(db.pages);
      var mid, after := SyncPages(db, slugs, ps[..n], order, ts), SyncPages(db, slugs, ps, order, ts);
      var bound := BoundPage(mid, slugs, ps[n]);
      assert after == SyncPage(mid, slugs, ps[n], order, ts);
      assert after.components == Bind(mid.components, bound, order, ids, ts);
      PagesKept(db, slugs, ps[..n], order, ts);
      SyncedStep(db.pages, mid, ps, order, ts, page);
      hide Bind, SyncPages, SyncPage, IsSynced, TargetIds, Slugs, Covers, Separated, Enumerates;
      if page == bound {
        BindCovers(mid.components, bound, order, ids, ts);
      } else {
        SyncedPagesCovered(db, ps[..n], order, ts, page);
        BindKeepsCover(mid.components, bound, order, ids, ts, page);
      }
    }
  }

  ghost predicate BoundBySync(db: Db, after: Db, cfg: Config, key: (nat, nat)) {
    IsSynced(db.pages, after.pages, cfg.pages, key.0) && key.1 in TargetIds(after.targets).Values
  }

  // The binding that seeding writes for a target, up to its number.
  ghost predicate IsTemplate(c: Component, ids: map<string, nat>, target: nat, ts: seq<SeedTarget>) {
    exists n :: n in ids && ids[n] == target && SameBinding(c, Template(ids, n, ts, 0))
  }

  lemma CoverIsTemplate(components: Bindings, page: nat, ids: map<string, nat>, ts: seq<SeedTarget>, target: nat)
    requires Covers(components, page, ids, ts) && target in ids.Values
    ensures (page, target) in components && IsTemplate(components[(page, target)], ids, target, ts)
  {
    var n :| n in ids && ids[n] == target;
    assert IsBoundTo(components, page, ids, n, ts);
    assert SameBinding(components[(page, target)], Template(ids, n, ts, 0));
  }

  // The group that the configuration gives a name: that of its last entry, if it has one.
  ghost predicate HasGroup(ts: seq<SeedTarget>, n: string, group: string) {
    && (forall i :: 0 <= i < |ts| && ts[i].name == n && (forall j :: i < j < |ts| ==> ts[j].name != n)
                    ==> group == if ts[i].group.Some? then ts[i].group.value else "General")
    && ((forall i :: 0 <= i < |ts| ==> ts[i].name != n) ==> group == "General")
  }

  // What a written binding holds: the target under its name, no public name or
  // description, and the configured group.
  ghost predicate IsWritten(c: Component, targets: seq<Target>, target: nat, ts: seq<SeedTarget>) {
    && c.target == target && c.publicName == None && c.publicDescription == None && c.publicGroup.Some?
    && (exists i :: 0 <= i < |targets| && targets[i].id == target && targets[i].name == c.monitorName)
    && HasGroup(ts, c.monitorName, c.publicGroup.value)
  }

  lemma {:induction false} NoEntryNoGroup(ts: seq<SeedTarget>, n: string)
    requires forall i :: 0 <= i < |ts| ==> ts[i].name != n
    ensures GroupOf(ts, n) == "General"
  {
    if ts != [] {
      NoEntryNoGroup(ts[..|ts| - 1], n);
    }
  }

  lemma TemplateIsWritten(c: Component, targets: seq<Target>, target: nat, ts: seq<SeedTarget>)
    requires IsTemplate(c, TargetIds(targets), target, ts)
    ensures IsWritten(c, targets, target, ts)
  {
    var ids := TargetIds(targets);
    var n :| n in ids && ids[n] == target && SameBinding(c, Template(ids, n, ts, 0));
    IdsNameTargets(targets, n);
    hide TargetIds, GroupOf;
    forall i | 0 <= i < |ts| && ts[i].name == n && (forall j :: i < j < |ts| ==> ts[j].name != n)
      ensures GroupOf(ts, n) == if ts[i].group.Some? then ts[i].group.value else "General"
    {
      GroupMeaning(ts, n, i);
    }
    if forall i :: 0 <= i < |ts| ==> ts[i].name != n {
      NoEntryNoGroup(ts, n);
    }
  }

  /** What a sync makes of each binding: those of synced pages to known targets become
      the ones seeding writes, public name and description empty; all others stay. */
  lemma SyncWritesBindings(db: Db, cfg: Config, order: seq<string>, key: (nat, nat))
    requires Wf(db) && Enumerates(order, TargetIds(Prepared(db, cfg).targets))
    ensures var after := Sync(db, cfg, order);
            if BoundBySync(db, after, cfg, key)
            then key in after.components
                 && IsTemplate(after.components[key], TargetIds(after.targets), key.1, cfg.targets)
                 && IsWritten(after.components[key], after.targets, key.1, cfg.targets)
            else SameAt(db.components, after.components, key)
  {
    var b, after := Prepared(db, cfg), Sync(db, cfg, order);
    PreparedIsReady(db, cfg);
    OrderIsSeparated(b, order);
    hide Bind, Separated, Prepared, SyncPages, Covers, TargetIds, Slugs;
    if BoundBySync(db, after, cfg, key) {
      SyncedPagesCovered(b, cfg.pages, order, cfg.targets, key.0);
      CoverIsTemplate(after.components, key.0, TargetIds(b.targets), cfg.targets, key.1);
      TemplateIsWritten(after.components[key], b.targets, key.1, cfg.targets);
    } else {
      PagesFrame(b, cfg.pages, order, cfg.targets, key);
    }
  }

  /** A sync makes the store hold the configuration: every configured channel, target
      and page is there, every configured page lists every target, and only configured
      entries were added. Channels, targets and pages that were there stay, unchanged,
      in place. The bindings of synced pages to known targets become the ones seeding
      writes; no other binding changes. */
  lemma SyncIsComplete(db: Db, cfg: Config, order: seq<string>)
    requires Wf(db) && Enumerates(order, TargetIds(Prepared(db, cfg).targets))
    ensures var after := Sync(db, cfg, order);
            && Ready(after, cfg) && PagesDone(after, cfg.pages, cfg.targets)
            && db.channels <= after.channels && db.targets <= after.targets && db.pages <= after.pages
            && (forall c :: c in after.channels && c !in db.channels ==> c.name in cfg.channels)
            && (forall t :: t in after.targets && t !in db.targets ==>
                  FromEntry(t, ChannelIds(after.channels, cfg.channels), cfg.targets))
            && (forall p :: p in after.pages && p !in db.pages ==> FromPageEntry(p, cfg.pages))
            && (forall key :: !BoundBySync(db, after, cfg, key) ==> SameAt(db.components, after.components, key))
  {
    forall key | !BoundBySync(db, Sync(db, cfg, order), cfg, key)
      ensures SameAt(db.components, Sync(db, cfg, order).components, key)
    {
      SyncWritesBindings(db, cfg, order, key);
    }
    hide Bind, Separated, PagesDone, FromEntry, ChannelIds, BoundBySync, SameAt;
    var a, b := SyncChannels(db, cfg.channels), Prepared(db, cfg);
    ChannelsKept(db, cfg.channels);
    ChannelsFrame(db, cfg.channels);
    TargetsKept(a, ChannelIds(a.channels, cfg.channels), cfg.targets);
    TargetsFrame(a, ChannelIds(a.channels, cfg.channels), cfg.targets);
    PreparedIsReady(db, cfg);
    PagesKept(b, Slugs(b.pages), cfg.pages, order, cfg.targets);
    OrderIsSeparated(b, order);
    PagesReached(b, Slugs(b.pages), cfg.pages, order, cfg.targets);
  }

  /** An existing binding survives a sync, up to its number, if and only if the sync does
      not write it or it already is what the sync writes: what an operator changed on
      a configured page is lost. */
  lemma BindingSurvivesIff(db: Db, cfg: Config, order: seq<string>, key: (nat, nat))
    requires Wf(db) && Enumerates(order, TargetIds(Prepared(db, cfg).targets)) && key in db.components
    ensures var after := Sync(db, cfg, order);
            && key in after.components
            && (SameBinding(db.components[key], after.components[key])
                <==> !BoundBySync(db, after, cfg, key)
                     || IsTemplate(db.components[key], TargetIds(after.targets), key.1, cfg.targets))
  {
    SyncWritesBindings(db, cfg, order, key);
    PreparedIsReady(db, cfg);
    hide Bind, BoundBySync, TargetIds, GroupOf;
    var b, after := Prepared(db, cfg), Sync(db, cfg, order);
    var ids, was := TargetIds(b.targets), db.components[key];
    if BoundBySync(db, after, cfg, key) {
      var n :| n in ids && ids[n] == key.1 && SameBinding(after.components[key], Template(ids, n, cfg.targets, 0));
      if SameBinding(was, after.components[key]) {
        assert SameBinding(was, Template(ids, n, cfg.targets, 0));
      }
      if m :| m in ids && ids[m] == key.1 && SameBinding(was, Template(ids, m, cfg.targets, 0)) {
        IdsAreInjective(b, n, m);
      }
    }
  }

  /** A public name given to a component of a configured page is gone after a restart. */
  lemma PublicNameIsLost()
    ensures var was := Component(0, "api", Some("Public API"), None, Some("General"), 0);
            var db := Db([], [Target(0, "api", [])], [Page(1, "status", "Status")], map[(1, 0) := was], 2);
            var cfg := Config([], [], [SeedPage("status", "Status")]);
            && Wf(db) && Enumerates(["api"], TargetIds(Prepared(db, cfg).targets))
            && var after := Sync(db, cfg, ["api"]);
               (1, 0) in after.components && after.components[(1, 0)] == was.(publicName := None)
  {
    var target, page := Target(0, "api", []), Page(1, "status", "Status");
    var was := Component(0, "api", Some("Public API"), None, Some("General"), 0);
    var db := Db([], [target], [page], map[(1, 0) := was], 2);
    var cfg := Config([], [], [SeedPage("status", "Status")]);
    assert [target][..0] == [] && [page][..0] == [];
    assert TargetIds([target]) == map["api" := 0] && Slugs([page]) == map["status" := 1];
    assert Prepared(db, cfg) == db;
    SyncNumbersBindings(db, cfg, ["api"], 0, 0);
  }

  /** The alerts of a target are the identifiers of its known channels. */
  lemma {:induction false} AlertsMeaning(ids: map<string, nat>, names: seq<string>, id: nat)
    ensures id in Alerts(ids, names) <==> exists n :: n in names && n in ids && ids[n] == id
    ensures |Alerts(ids, names)| == |names| <==> forall n :: n in names ==> n in ids
    ensures |Alerts(ids, names)| <= |names|
    ensures (forall n :: n in names ==> n in ids)
            ==> |Alerts(ids, names)| == |names|
                && forall k :: 0 <= k < |names| ==> Alerts(ids, names)[k] == ids[names[k]]
  {
    if names != [] {
      assert names == names[..|names| - 1] + [names[|names| - 1]];
      AlertsMeaning(ids, names[..|names| - 1], id);
    }
  }

  /** A target is shown in the group of its last configured entry, or "General". */
  lemma {:induction false} GroupMeaning(ts: seq<SeedTarget>, n: string, i: nat)
    requires i < |ts| && ts[i].name == n && forall j :: i < j < |ts| ==> ts[j].name != n
    ensures GroupOf(ts, n) == if ts[i].group.Some? then ts[i].group.value else "General"
  {
    if i < |ts| - 1 {
      GroupMeaning(ts[..|ts| - 1], n, i);
    }
  }

  /** After a sync the targets of every configured page are numbered 0, 1, 2, ...
      in the order the hash map yielded them. */
  lemma SyncNumbersBindings(db: Db, cfg: Config, order: seq<string>, k: nat, i: nat)
    requires Wf(db) && Enumerates(order, TargetIds(Prepared(db, cfg).targets))
    requires k < |cfg.pages| && i < |order|
    ensures SlugNumbered(Sync(db, cfg, order), cfg.pages[k].slug, order, cfg.targets, i)
  {
    hide Bind, Separated;
    var b := Prepared(db, cfg);
    PreparedIsReady(db, cfg);
    OrderIsSeparated(b, order);
    PagesNumbered(b, Slugs(b.pages), cfg.pages, order, cfg.targets, k, i);
  }

  lemma {:induction false} PagesNumbered(db: Db, slugs: map<string, nat>, ps: seq<SeedPage>, order: seq<string>,
                                         ts: seq<SeedTarget>, k: nat, i: nat)
    requires Enumerates(order, TargetIds(db.targets)) && Known(order, TargetIds(db.targets))
    requires Separated(order, TargetIds(db.targets)) && Extends(db, slugs)
    requires k < |ps| && i < |order|
    ensures SlugNumbered(SyncPages(db, slugs, ps, order, ts), ps[k].slug, order, ts, i)
  {
    hide SyncPage, Extends, Separated, SlugNumbered, PagesDone;
    var n := |ps| - 1;
    var mid := SyncPages(db, slugs, ps[..n], order, ts);
    PagesReached(db, slugs, ps[..n], order, ts);
    if k < n {
      PagesNumbered(db, slugs, ps[..n], order, ts, k, i);
    }
    PageNumbers(mid, slugs, ps[n], order, ts, i, ps[k].slug);
  }

  // Syncing one page numbers it and keeps the other pages' numbers.
  lemma PageNumbers(db: Db, slugs: map<string, nat>, p: SeedPage, order: seq<string>, ts: seq<SeedTarget>,
                    i: nat, slug: string)
    requires Known(order, TargetIds(db.targets)) && Separated(order, TargetIds(db.targets))
    requires Extends(db, slugs) && i < |order|
    requires slug == p.slug || SlugNumbered(db, slug, order, ts, i)
    ensures SlugNumbered(SyncPage(db, slugs, p, order, ts), slug, order, ts, i)
  {
    hide Bind, Enumerates, GroupOf;
    var ids := TargetIds(db.targets);
    assert order[i] in order;
    var page := if p.slug in slugs then slugs[p.slug] else db.nextId;
    SlugsNext(db.pages, Page(db.nextId, p.slug, p.name));
    BindNumbers(db.components, page, order, ids, ts, i);
    if slug != p.slug && Slugs(db.pages)[slug] != page {
      OtherPageKept(db.components, page, order, ids, ts, (Slugs(db.pages)[slug], ids[order[i]]));
    }
  }

  ghost predicate SlugNumbered(db: Db, slug: string, order: seq<string>, ts: seq<SeedTarget>, i: nat)
    requires i < |order|
  {
    && order[i] in TargetIds(db.targets) && slug in Slugs(db.pages)
    && Numbered(db.components, Slugs(db.pages)[slug], TargetIds(db.targets), order, ts, i)
  }

  ghost predicate Numbered(components: Bindings, page: nat, ids: map<string, nat>, order: seq<string>,
                           ts: seq<SeedTarget>, i: nat)
    requires i < |order| && order[i] in ids
  {
    var key := (page, ids[order[i]]);
    key in components && components[key] == Template(ids, order[i], ts, i)
  }

  lemma OtherPageKept(components: Bindings, page: nat, order: seq<string>, ids: map<string, nat>,
                      ts: seq<SeedTarget>, key: (nat, nat))
    requires Known(order, ids) && key.0 != page
    ensures var after := Bind(components, page, order, ids, ts);
            (key in after <==> key in components) && (key in components ==> after[key] == components[key])
  {
    BindKeeps(components, page, order, ids, ts, key);
  }

  // Binding adds keys for known targets only.
  lemma {:induction false} BindAddsKnown(components: Bindings, page: nat, order: seq<string>,
                                         ids: map<string, nat>, ts: seq<SeedTarget>, key: (nat, nat))
    requires Known(order, ids) && key in Bind(components, page, order, ids, ts) && key !in components
    ensures key.1 in ids.Values
  {
    hide GroupOf;
    if IsBound(key, page, order, ids) {
      var i :| 0 <= i < |order| && key == (page, ids[order[i]]);
      assert order[i] in order;
    } else {
      BindKeeps(components, page, order, ids, ts, key);
    }
  }

  lemma {:induction false} PagesAddKnown(db: Db, slugs: map<string, nat>, ps: seq<SeedPage>, order: seq<string>,
                                         ts: seq<SeedTarget>, key: (nat, nat))
    requires Known(order, TargetIds(db.targets))
    requires key in SyncPages(db, slugs, ps, order, ts).components && key !in db.components
    ensures key.1 in TargetIds(db.targets).Values
  {
    hide Bind;
    var n := |ps| - 1;
    var mid := SyncPages(db, slugs, ps[..n], order, ts);
    if key in mid.components {
      PagesAddKnown(db, slugs, ps[..n], order, ts, key);
    } else {
      var page := if ps[n].slug in slugs then slugs[ps[n].slug] else mid.nextId;
      BindAddsKnown(mid.components, page, order, TargetIds(db.targets), ts, key);
    }
  }

  // Every binding of the page is to a target the name table lists.
  ghost predicate OnlyKnown(components: Bindings, page: nat, ids: map<string, nat>) {
    forall key :: key in components && key.0 == page ==> key.1 in ids.Values
  }

  /** On a configured page that had no bindings to other targets, the numbers after a
      sync are a permutation of 0..n: every binding is the one of some position i in
      the order, and carries number i. */
  lemma SyncNumbersArePermutation(db: Db, cfg: Config, order: seq<string>, k: nat, key: (nat, nat))
    requires Wf(db) && Enumerates(order, TargetIds(Prepared(db, cfg).targets)) && k < |cfg.pages|
    requires cfg.pages[k].slug in Slugs(Sync(db, cfg, order).pages)
    requires key in Sync(db, cfg, order).components && key.0 == Slugs(Sync(db, cfg, order).pages)[cfg.pages[k].slug]
    requires OnlyKnown(db.components, key.0, TargetIds(Prepared(db, cfg).targets))
    ensures var c := Sync(db, cfg, order).components[key];
            && c.sortOrder < |order| && c.monitorName == order[c.sortOrder] && c.target == key.1
            && key.1 == TargetIds(Prepared(db, cfg).targets)[order[c.sortOrder]]
  {
    hide Bind, Separated, GroupOf;
    var b := Prepared(db, cfg);
    var ids := TargetIds(b.targets);
    PreparedIsReady(db, cfg);
    if key !in db.components {
      PagesAddKnown(b, Slugs(b.pages), cfg.pages, order, cfg.targets, key);
    }
    var n :| n in ids && ids[n] == key.1;
    var i :| 0 <= i < |order| && order[i] == n;
    SyncNumbersBindings(db, cfg, order, k, i);
  }
}
