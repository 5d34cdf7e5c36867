/** Config-driven seeding: channels, targets, pages and component bindings. */
module Seeding {
  import opened Common

  datatype Channel = Channel(id: nat, name: string)
  datatype Target = Target(id: nat, name: string, alerts: seq<nat>)
  datatype Page = Page(id: nat, slug: string, name: string)
  datatype Component = Component(
    target: nat,
    monitorName: string,
    publicName: Option<string>,
    publicDescription: Option<string>,
    publicGroup: Option<string>,
    sortOrder: nat)

  // By page and target.
  type Bindings = map<(nat, nat), Component>

  // Lists are in creation order. `nextId` is the next unused identifier.
  datatype Db = Db(
    channels: seq<Channel>,
    targets: seq<Target>,
    pages: seq<Page>,
    components: Bindings,
    nextId: nat)

  datatype SeedTarget = SeedTarget(name: string, group: Option<string>, channelNames: seq<string>)
  datatype SeedPage = SeedPage(slug: string, name: string)
  datatype Config = Config(channels: seq<string>, targets: seq<SeedTarget>, pages: seq<SeedPage>)

  // ---- channels ----

  function FindChannel(channels: seq<Channel>, name: string): Option<nat> {
    if channels == [] then None
    else if channels[0].name == name then Some(channels[0].id)
    else FindChannel(channels[1..], name)
  }

  function SyncChannel(db: Db, name: string): Db {
    if FindChannel(db.channels, name).Some? then db
    else db.(channels := db.channels + [Channel(db.nextId, name)], nextId := db.nextId + 1)
  }

  function SyncChannels(db: Db, names: seq<string>): Db {
    if names == [] then db else SyncChannel(SyncChannels(db, names[..|names| - 1]), names[|names| - 1])
  }

  // The identifiers of the configured channels, by name.
  function ChannelIds(channels: seq<Channel>, names: seq<string>): map<string, nat> {
    map n | n in names && FindChannel(channels, n).Some? :: FindChannel(channels, n).value
  }

  function Alerts(ids: map<string, nat>, names: seq<string>): seq<nat> {
    if names == [] then []
    else var rest, n := Alerts(ids, names[..|names| - 1]), names[|names| - 1];
         if n in ids then rest + [ids[n]] else rest
  }

  // ---- targets ----

  // Identifier by name; of several targets with one name the newest counts.
  function TargetIds(targets: seq<Target>): map<string, nat> {
    if targets == [] then map[]
    else var t := targets[|targets| - 1];
         TargetIds(targets[..|targets| - 1])[t.name := t.id]
  }

  function SyncTarget(db: Db, channelIds: map<string, nat>, t: SeedTarget): Db {
    if t.name in TargetIds(db.targets) then db
    else var target := Target(db.nextId, t.name, Alerts(channelIds, t.channelNames));
         db.(targets := db.targets + [target], nextId := db.nextId + 1)
  }

  function SyncTargets(db: Db, channelIds: map<string, nat>, ts: seq<SeedTarget>): Db {
    if ts == [] then db
    else SyncTarget(SyncTargets(db, channelIds, ts[..|ts| - 1]), channelIds, ts[|ts| - 1])
  }

  // ---- pages and components ----

  function Slugs(pages: seq<Page>): map<string, nat> {
    if pages == [] then map[]
    else var p := pages[|pages| - 1];
         Slugs(pages[..|pages| - 1])[p.slug := p.id]
  }

  // Of several seed entries for one target name the last one gives the group.
  function GroupOf(ts: seq<SeedTarget>, name: string): string {
    if ts == [] then "General"
    else var t := ts[|ts| - 1];
         if t.name == name then (if t.group.Some? then t.group.value else "General")
         else GroupOf(ts[..|ts| - 1], name)
  }

  // The binding that seeding writes for a target, whatever was there before.
  function Template(ids: map<string, nat>, n: string, ts: seq<SeedTarget>, k: nat): Component
    requires n in ids
  {
    Component(ids[n], n, None, None, Some(GroupOf(ts, n)), k)
  }

  // Binds the targets named by `order` to a page, numbering them in that order.
  function Bind(components: Bindings, page: nat, order: seq<string>, ids: map<string, nat>, ts: seq<SeedTarget>)
    : Bindings
    requires forall n :: n in order ==> n in ids
  {
    if order == [] then components
    else var k := |order| - 1;
         var n := order[k];
         assert n in order;
         Bind(components, page, order[..k], ids, ts)[(page, ids[n]) := Template(ids, n, ts, k)]
  }

  // Creates the page unless its slug was there when the sync began, then binds.
  function SyncPage(db: Db, slugs: map<string, nat>, p: SeedPage, order: seq<string>, ts: seq<SeedTarget>): Db
    requires forall n :: n in order ==> n in TargetIds(db.targets)
  {
    var created :=
      if p.slug in slugs then db
      else db.(pages := db.pages + [Page(db.nextId, p.slug, p.name)], nextId := db.nextId + 1);
    var page := if p.slug in slugs then slugs[p.slug] else db.nextId;
    created.(components := Bind(db.components, page, order, TargetIds(db.targets), ts))
  }

  function SyncPages(db: Db, slugs: map<string, nat>, ps: seq<SeedPage>, order: seq<string>, ts: seq<SeedTarget>)
    : (r: Db)
    requires forall n :: n in order ==> n in TargetIds(db.targets)
    ensures r.targets == db.targets && r.channels == db.channels
  {
    if ps == [] then db
    else SyncPage(SyncPages(db, slugs, ps[..|ps| - 1], order, ts), slugs, ps[|ps| - 1], order, ts)
  }

  // Channels and targets after the first two phases.
  function Prepared(db: Db, cfg: Config): Db {
    var a := SyncChannels(db, cfg.channels);
    SyncTargets(a, ChannelIds(a.channels, cfg.channels), cfg.targets)
  }

  // `order` is the iteration order of the name table, which a hash map leaves open.
  ghost predicate Enumerates(order: seq<string>, ids: map<string, nat>) {
    && (forall n :: n in order <==> n in ids)
    && (forall i, j :: 0 <= i < j < |order| ==> order[i] != order[j])
  }

  function Sync(db: Db, cfg: Config, order: seq<string>): Db
    requires Enumerates(order, TargetIds(Prepared(db, cfg).targets))
  {
    var b := Prepared(db, cfg);
    SyncPages(b, Slugs(b.pages), cfg.pages, order, cfg.targets)
  }

  ghost predicate Wf(db: Db) {
    && (forall i, j :: 0 <= i < j < |db.targets| ==> db.targets[i].id != db.targets[j].id)
    && (forall i :: 0 <= i < |db.targets| ==> db.targets[i].id < db.nextId)
    && (forall i :: 0 <= i < |db.pages| ==> db.pages[i].id < db.nextId)
  }

  /** The store, synced in place. */
  class Store {
    var channels: seq<Channel>
    var targets: seq<Target>
    var pages: seq<Page>
    var components: Bindings
    var nextId: nat

    ghost function Tables(): Db reads this { Db(channels, targets, pages, components, nextId) }

    constructor ()
      ensures Tables() == Db([], [], [], map[], 0)
    {
      channels, targets, pages, components, nextId := [], [], [], map[], 0;
    }

    method SyncConfiguredChannels(names: seq<string>) returns (ids: map<string, nat>)
      modifies this`channels, this`nextId
      ensures Tables() == SyncChannels(old(Tables()), names)
      ensures ids == ChannelIds(channels, names)
    {
      ids := map[];
      for k := 0 to |names|
        invariant targets == old(targets) && pages == old(pages) && components == old(components)
        invariant Tables() == SyncChannels(old(Tables()), names[..k])
        invariant ids.Keys == (set n | n in names[..k])
        invariant forall n :: n in ids ==> FindChannel(channels, n) == Some(ids[n])
      {
        assert names[..k + 1][..k] == names[..k] && names[..k + 1][k] == names[k];
        assert forall n :: n in names[..k + 1] <==> n in names[..k] || n == names[k];
        var existing := FindChannel(channels, names[k]);
        if existing.Some? {
          ids := ids[names[k] := existing.value];
        } else {
          var created := Channel(nextId, names[k]);
          forall n ensures FindChannel(channels + [created], n)
                        == if FindChannel(channels, n).Some? then FindChannel(channels, n)
                           else if n == names[k] then Some(created.id) else None {
            FindAppended(channels, created, n);
          }
          channels := channels + [created];
          nextId := nextId + 1;
          ids := ids[names[k] := created.id];
        }
      }
      assert names[..|names|] == names;
    }

    method SyncConfiguredTargets(channelIds: map<string, nat>, ts: seq<SeedTarget>) returns (ids: map<string, nat>)
      modifies this`targets, this`nextId
      ensures Tables() == SyncTargets(old(Tables()), channelIds, ts)
      ensures ids == TargetIds(targets)
    {
      ids := TargetIds(targets);
      for k := 0 to |ts|
        invariant channels == old(channels) && pages == old(pages) && components == old(components)
        invariant Tables() == SyncTargets(old(Tables()), channelIds, ts[..k])
        invariant ids == TargetIds(targets)
      {
        assert ts[..k + 1][..k] == ts[..k];
        if ts[k].name in ids {
          continue;
        }
        var target := Target(nextId, ts[k].name, Alerts(channelIds, ts[k].channelNames));
        assert (targets + [target])[..|targets|] == targets;
        targets := targets + [target];
        nextId := nextId + 1;
        ids := ids[target.name := target.id];
      }
      assert ts[..|ts|] == ts;
    }

    method SyncConfiguredPages(ps: seq<SeedPage>, order: seq<string>, ids: map<string, nat>, ts: seq<SeedTarget>)
      requires ids == TargetIds(targets) && forall n :: n in order ==> n in ids
      modifies this`pages, this`components, this`nextId
      ensures Tables() == SyncPages(old(Tables()), Slugs(old(pages)), ps, order, ts)
    {
      var slugs := Slugs(pages);
      for k := 0 to |ps|
        invariant channels == old(channels) && targets == old(targets)
        invariant Tables() == SyncPages(old(Tables()), slugs, ps[..k], order, ts)
      {
        assert ps[..k + 1][..k] == ps[..k];
        var page;
        if ps[k].slug in slugs {
          page := slugs[ps[k].slug];
        } else {
          page := nextId;
          pages := pages + [Page(page, ps[k].slug, ps[k].name)];
          nextId := nextId + 1;
        }
        BindTargets(page, order, ids, ts);
      }
      assert ps[..|ps|] == ps;
    }

    method BindTargets(page: nat, order: seq<string>, ids: map<string, nat>, ts: seq<SeedTarget>)
      requires forall n :: n in order ==> n in ids
      modifies this`components
      ensures components == Bind(old(components), page, order, ids, ts)
    {
      for k := 0 to |order|
        invariant components == Bind(old(components), page, order[..k], ids, ts)
      {
        assert order[..k + 1][..k] == order[..k];
        var n := order[k];
        var component := Component(ids[n], n, None, None, Some(GroupOf(ts, n)), k);
        components := components[(page, ids[n]) := component];
      }
      assert order[..|order|] == order;
    }

    method SyncFromConfig(cfg: Config, order: seq<string>)
      requires Enumerates(order, TargetIds(Prepared(Tables(), cfg).targets))
      modifies this
      ensures Tables() == Sync(old(Tables()), cfg, order)
    {
      var channelIds := SyncConfiguredChannels(cfg.channels);
      var ids := SyncConfiguredTargets(channelIds, cfg.targets);
      SyncConfiguredPages(cfg.pages, order, ids, cfg.targets);
    }
  }

  lemma {:induction false} FindAppended(channels: seq<Channel>, c: Channel, name: string)
    ensures FindChannel(channels + [c], name)
         == if FindChannel(channels, name).Some? then FindChannel(channels, name)
            else if c.name == name then Some(c.id) else None
  {
    if channels == [] {
      assert channels + [c] == [c];
    } else {
      FindAppended(channels[1..], c, name);
      assert (channels + [c])[1..] == channels[1..] + [c];
    }
  }
}
