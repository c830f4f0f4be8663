/** What is installed for a Lua project (`luarocks.rs`): answers over stores some of which could
    not be read, and what stays true once they are. */
module LuaRocks {
  import opened Wrappers

  // ------------------------------------------------------------ sources

  /** One installed version of a rock and the modules its store lists for it. */
  datatype RockVersion = RockVersion(version: string, modules: set<string>)

  datatype Rock = Rock(name: string, versions: seq<RockVersion>)

  /** A store and, when it could be read, the rocks it lists. */
  datatype Store = Store(tree: string, lua: string, manifest: Option<seq<Rock>>)

  datatype Lock = Absent | Unreadable | Pins(pins: seq<(string, string, string)>)

  /** `extraUnknown`: there may be trees beyond those listed. */
  datatype Project = Project(stores: seq<Store>, lock: Lock, extraUnknown: bool)

  /** LuaRocks' own reading of constraints: which texts it accepts, and which versions meet them. */
  datatype Lua = Lua(recognised: string -> bool, meets: (string, string) -> bool)

  function ConstraintAccepts(lua: Lua, constraint: Option<string>, version: string): Option<bool> {
    match constraint
    case None => Some(true)
    case Some(text) => if lua.recognised(text) then Some(lua.meets(text, version)) else None
  }

  predicate Recognised(lua: Lua, constraint: Option<string>) {
    constraint.None? || lua.recognised(constraint.value)
  }

  predicate Accepts(lua: Lua, constraint: Option<string>, version: string) {
    ConstraintAccepts(lua, constraint, version) == Some(true)
  }

  datatype InstalledVersion = InstalledVersion(version: string, lua: string, tree: string)

  datatype Installed = Found(versions: seq<InstalledVersion>, complete: bool) | NotFound | Unknown(unread: nat)

  datatype Satisfaction = Undecided | NotInstalled | Satisfied(ok: seq<string>) | Unsatisfied(all: seq<string>)

  datatype Presence = Yes | No | Maybe

  datatype Pin =
    | NoLockfile
    | LockUnknown
    | NotPinned
    | Pinned(version: string, installed: Presence, satisfies: Option<bool>)

  // ------------------------------------------------------------ more knowledge of the same project

  /** The same store, read if it was not. */
  predicate StoreRefines(p: Store, q: Store) {
    q.tree == p.tree && q.lua == p.lua && (p.manifest.Some? ==> q.manifest == p.manifest)
  }

  /** `q` knows at least as much as `p`: unread stores may turn out to hold anything, and stores
      nobody knew of may turn up when that was possible. */
  ghost predicate Refines(p: Project, q: Project) {
    && |p.stores| <= |q.stores| && q.lock == p.lock
    && (forall i :: 0 <= i < |p.stores| ==> StoreRefines(p.stores[i], q.stores[i]))
    && (!p.extraUnknown ==> |q.stores| == |p.stores| && !q.extraUnknown)
  }

  function UnreadStores(stores: seq<Store>): nat {
    if stores == [] then 0
    else UnreadStores(stores[..|stores| - 1]) + (if stores[|stores| - 1].manifest.None? then 1 else 0)
  }

  function Unread(p: Project): nat { UnreadStores(p.stores) + (if p.extraUnknown then 1 else 0) }

  /** Everything was read. */
  predicate Complete(p: Project) { Unread(p) == 0 }

  lemma {:induction false} ReadAll(stores: seq<Store>)
    ensures UnreadStores(stores) == 0 <==> forall i :: 0 <= i < |stores| ==> stores[i].manifest.Some?
  {
    if stores != [] { ReadAll(stores[..|stores| - 1]); }
  }

  /** Of what was read completely there is no more to know. */
  lemma NothingMore(p: Project, q: Project)
    requires Complete(p) && Refines(p, q)
    ensures q == p
  {
    ReadAll(p.stores);
    forall i | 0 <= i < |p.stores| ensures q.stores[i] == p.stores[i] {
      assert StoreRefines(p.stores[i], q.stores[i]);
    }
    assert q.stores == p.stores;
  }

  // ------------------------------------------------------------ installed versions

  function RockVersions(rocks: seq<Rock>, rock: string): seq<RockVersion> {
    if rocks == [] then [] else if rocks[0].name == rock then rocks[0].versions else RockVersions(rocks[1..], rock)
  }

  /** Those of `versions` that are asked for, with the store they are in. */
  function Tagged(versions: seq<RockVersion>, s: Store, keep: RockVersion -> bool): seq<InstalledVersion> {
    if versions == [] then []
    else
      var v := versions[|versions| - 1];
      Tagged(versions[..|versions| - 1], s, keep) +
        (if keep(v) then [InstalledVersion(v.version, s.lua, s.tree)] else [])
  }

  function Any(): RockVersion -> bool { (v: RockVersion) => true }

  /** The versions of a rock in one store, none if it was not read. */
  function VersionsIn(s: Store, rock: string, keep: RockVersion -> bool): seq<InstalledVersion> {
    match s.manifest case None => [] case Some(rocks) => Tagged(RockVersions(rocks, rock), s, keep)
  }

  function AllVersions(stores: seq<Store>, rock: string, keep: RockVersion -> bool): seq<InstalledVersion> {
    if stores == [] then []
    else AllVersions(stores[..|stores| - 1], rock, keep) + VersionsIn(stores[|stores| - 1], rock, keep)
  }

  function InstalledOf(p: Project, rock: string): Installed {
    var versions := AllVersions(p.stores, rock, Any());
    if versions != [] then Found(versions, Complete(p))
    else if Complete(p) then NotFound
    else Unknown(Unread(p))
  }

  method Append(
    versions0: seq<InstalledVersion>, found: seq<RockVersion>, store: Store)
    returns (versions: seq<InstalledVersion>)
    ensures versions == versions0 + Tagged(found, store, Any())
  {
    versions := versions0;
    for j := 0 to |found|
      invariant versions == versions0 + Tagged(found[..j], store, Any())
    {
      assert found[..j + 1][..j] == found[..j];
      versions := versions + [InstalledVersion(found[j].version, store.lua, store.tree)];
    }
    assert found[..|found|] == found;
  }

  method InstalledIn(p: Project, rock: string) returns (r: Installed)
    ensures r == InstalledOf(p, rock)
  {
    var versions: seq<InstalledVersion> := [];
    var unread := if p.extraUnknown then 1 else 0;
    for i := 0 to |p.stores|
      invariant versions == AllVersions(p.stores[..i], rock, Any())
      invariant unread == UnreadStores(p.stores[..i]) + (if p.extraUnknown then 1 else 0)
    {
      var store := p.stores[i];
      assert p.stores[..i + 1][..i] == p.stores[..i];
      match store.manifest
      case Some(rocks) =>
        versions := Append(versions, RockVersions(rocks, rock), store);
      case None =>
        assert versions + VersionsIn(store, rock, Any()) == versions;
        unread := unread + 1;
    }
    assert p.stores[..|p.stores|] == p.stores;
    if versions != [] { return Found(versions, unread == 0); }
    if unread == 0 { return NotFound; }
    return Unknown(unread);
  }

  /** Knowing more only adds versions. */
  lemma {:induction false} MoreVersions(
    p: seq<Store>, q: seq<Store>, rock: string, v: InstalledVersion, keep: RockVersion -> bool)
    requires |p| <= |q| && forall i :: 0 <= i < |p| ==> StoreRefines(p[i], q[i])
    requires v in AllVersions(p, rock, keep)
    ensures v in AllVersions(q, rock, keep)
    decreases |q|
  {
    if |q| > |p| {
      MoreVersions(p, q[..|q| - 1], rock, v, keep);
    } else {
      var n := |p| - 1;
      if v in VersionsIn(p[n], rock, keep) {
        assert StoreRefines(p[n], q[n]);
        assert v in VersionsIn(q[n], rock, keep);
      } else {
        MoreVersions(p[..n], q[..n], rock, v, keep);
      }
    }
  }

  // ------------------------------------------------------------ two ways it may turn out

  /** Every unread source turns out to hold `rocks`. */
  function FillStores(stores: seq<Store>, rocks: seq<Rock>): seq<Store> {
    seq(|stores|, i requires 0 <= i < |stores| =>
      if stores[i].manifest.None? then stores[i].(manifest := Some(rocks)) else stores[i])
  }

  function Fill(p: Project, rocks: seq<Rock>): Project {
    Project(FillStores(p.stores, rocks) + (if p.extraUnknown then [Store("", "", Some(rocks))] else []), p.lock, false)
  }

  lemma FillCompletes(p: Project, rocks: seq<Rock>)
    ensures Refines(p, Fill(p, rocks)) && Complete(Fill(p, rocks))
  {
    ReadAll(Fill(p, rocks).stores);
  }

  lemma {:induction false} FillEmpty(stores: seq<Store>, rock: string, keep: RockVersion -> bool)
    ensures AllVersions(FillStores(stores, []), rock, keep) == AllVersions(stores, rock, keep)
  {
    if stores != [] {
      var n := |stores| - 1;
      FillEmpty(stores[..n], rock, keep);
      assert FillStores(stores, [])[..n] == FillStores(stores[..n], []);
      assert VersionsIn(FillStores(stores, [])[n], rock, keep) == VersionsIn(stores[n], rock, keep);
    }
  }

  /** If they hold nothing, no version is added. */
  lemma NothingTurnsUp(p: Project, rock: string, keep: RockVersion -> bool)
    ensures AllVersions(Fill(p, []).stores, rock, keep) == AllVersions(p.stores, rock, keep)
  {
    FillEmpty(p.stores, rock, keep);
    if p.extraUnknown {
      AllVersionsSnoc(FillStores(p.stores, []), Store("", "", Some([])), rock, keep);
    } else {
      assert Fill(p, []).stores == FillStores(p.stores, []);
    }
  }

  lemma AllVersionsSnoc(stores: seq<Store>, s: Store, rock: string, keep: RockVersion -> bool)
    ensures AllVersions(stores + [s], rock, keep) == AllVersions(stores, rock, keep) + VersionsIn(s, rock, keep)
  {
    assert (stores + [s])[..|stores + [s]| - 1] == stores;
  }

  predicate HasVersion(versions: seq<InstalledVersion>, version: string) {
    exists i :: 0 <= i < |versions| && versions[i].version == version
  }

  lemma OneRock(s: Store, rock: string, v: RockVersion, keep: RockVersion -> bool)
    requires s.manifest == Some([Rock(rock, [v])]) && keep(v)
    ensures VersionsIn(s, rock, keep) == [InstalledVersion(v.version, s.lua, s.tree)]
  {
    assert RockVersions([Rock(rock, [v])], rock) == [v];
    assert [v][..|[v]| - 1] == [];
    assert Tagged([v], s, keep) == Tagged([], s, keep) + [InstalledVersion(v.version, s.lua, s.tree)];
  }

  lemma {:induction false} FillAdds(stores: seq<Store>, rock: string, v: RockVersion, keep: RockVersion -> bool)
    requires keep(v)
    ensures var t := AllVersions(FillStores(stores, [Rock(rock, [v])]), rock, keep);
      && |t| == |AllVersions(stores, rock, keep)| + UnreadStores(stores)
      && (UnreadStores(stores) > 0 ==> HasVersion(t, v.version))
  {
    hide RockVersions, Tagged;
    if stores != [] {
      var n := |stores| - 1;
      var filled := FillStores(stores, [Rock(rock, [v])]);
      FillAdds(stores[..n], rock, v, keep);
      assert filled[..n] == FillStores(stores[..n], [Rock(rock, [v])]);
      var before := AllVersions(filled[..n], rock, keep);
      if stores[n].manifest.None? {
        OneRock(filled[n], rock, v, keep);
        assert AllVersions(filled, rock, keep)[|before|].version == v.version;
      } else if UnreadStores(stores) > 0 {
        var i :| 0 <= i < |before| && before[i].version == v.version;
        assert AllVersions(filled, rock, keep)[i] == before[i];
      }
    }
  }

  /** If they hold one version of the rock, it is added once for each. */
  lemma OneTurnsUp(p: Project, rock: string, v: RockVersion, keep: RockVersion -> bool)
    requires keep(v)
    ensures var t := AllVersions(Fill(p, [Rock(rock, [v])]).stores, rock, keep);
      && |t| == |AllVersions(p.stores, rock, keep)| + Unread(p)
      && (Unread(p) > 0 ==> HasVersion(t, v.version))
  {
    var rocks := [Rock(rock, [v])];
    FillAdds(p.stores, rock, v, keep);
    if p.extraUnknown {
      var s := Store("", "", Some(rocks));
      AllVersionsSnoc(FillStores(p.stores, rocks), s, rock, keep);
      OneRock(s, rock, v, keep);
      var before := AllVersions(FillStores(p.stores, rocks), rock, keep);
      assert (before + VersionsIn(s, rock, keep))[|before|].version == v.version;
    } else {
      assert Fill(p, rocks).stores == FillStores(p.stores, rocks);
    }
  }

  // ------------------------------------------------------------ the answers stand

  /** A definite answer about what is installed stands whatever is read later. */
  lemma InstalledStands(p: Project, q: Project, rock: string)
    requires Refines(p, q)
    ensures InstalledOf(p, rock).NotFound? ==> InstalledOf(q, rock).NotFound?
    ensures InstalledOf(p, rock).Found? ==>
      InstalledOf(q, rock).Found?
      && forall v :: v in InstalledOf(p, rock).versions ==> v in InstalledOf(q, rock).versions
    ensures InstalledOf(p, rock).Found? && InstalledOf(p, rock).complete ==>
      InstalledOf(q, rock) == InstalledOf(p, rock)
  {
    if Complete(p) {
      NothingMore(p, q);
    } else if InstalledOf(p, rock).Found? {
      var versions := AllVersions(p.stores, rock, Any());
      forall v | v in versions
        ensures v in AllVersions(q.stores, rock, Any()) { MoreVersions(p.stores, q.stores, rock, v, Any()); }
      assert versions[0] in versions;
    }
  }

  /** Which kind of answer is given. */
  lemma AnswerOf(p: Project, rock: string)
    ensures var versions := AllVersions(p.stores, rock, Any());
      && (InstalledOf(p, rock).Found? <==> versions != [])
      && (InstalledOf(p, rock).Found? ==>
            InstalledOf(p, rock).versions == versions && InstalledOf(p, rock).complete == Complete(p))
      && (InstalledOf(p, rock).NotFound? <==> versions == [] && Complete(p))
  {
  }

  ghost predicate CompletesTo(p: Project, q: Project) { Refines(p, q) && Complete(q) }

  /** Nothing is known exactly when reading the rest may decide it either way. */
  lemma UnknownIff(p: Project, rock: string)
    ensures InstalledOf(p, rock).Unknown? <==>
      exists q, r ::
        CompletesTo(p, q) && CompletesTo(p, r) && InstalledOf(q, rock).Found? && InstalledOf(r, rock).NotFound?
  {
    hide InstalledOf, Fill;
    AnswerOf(p, rock);
    if InstalledOf(p, rock).Unknown? {
      var q, r := Fill(p, [Rock(rock, [RockVersion("1", {})])]), Fill(p, []);
      AnswerOf(q, rock);
      AnswerOf(r, rock);
      FillCompletes(p, [Rock(rock, [RockVersion("1", {})])]);
      FillCompletes(p, []);
      NothingTurnsUp(p, rock, Any());
      OneTurnsUp(p, rock, RockVersion("1", {}), Any());
      assert CompletesTo(p, q) && CompletesTo(p, r);
    } else {
      forall q | CompletesTo(p, q) ensures InstalledOf(q, rock).Found? <==> InstalledOf(p, rock).Found? {
        InstalledStands(p, q, rock);
      }
    }
  }

  /** The list of versions is called complete exactly when nothing can change it. */
  lemma CompleteIff(p: Project, rock: string)
    requires InstalledOf(p, rock).Found?
    ensures InstalledOf(p, rock).complete <==>
      forall q :: CompletesTo(p, q) ==>
        InstalledOf(q, rock).Found? && InstalledOf(q, rock).versions == InstalledOf(p, rock).versions
  {
    if Complete(p) {
      forall q | CompletesTo(p, q) ensures q == p { NothingMore(p, q); }
    } else {
      var v := RockVersion("1", {});
      FillCompletes(p, [Rock(rock, [v])]);
      OneTurnsUp(p, rock, v, Any());
      assert CompletesTo(p, Fill(p, [Rock(rock, [v])]));
    }
  }

  // ------------------------------------------------------------ constraints

  function Matching(lua: Lua, constraint: Option<string>, versions: seq<InstalledVersion>): seq<string> {
    if versions == [] then []
    else
      var v := versions[|versions| - 1].version;
      Matching(lua, constraint, versions[..|versions| - 1]) + (if Accepts(lua, constraint, v) then [v] else [])
  }

  function VersionTexts(versions: seq<InstalledVersion>): seq<string> {
    seq(|versions|, i requires 0 <= i < |versions| => versions[i].version)
  }

  function SatisfactionOf(lua: Lua, installed: Installed, constraint: Option<string>): Satisfaction {
    match installed
    case Unknown(_) => Undecided
    case NotFound => NotInstalled
    case Found(versions, complete) =>
      if versions != [] && !Recognised(lua, constraint) then Undecided
      else if Matching(lua, constraint, versions) != [] then Satisfied(Matching(lua, constraint, versions))
      else if complete then Unsatisfied(VersionTexts(versions))
      else Undecided
  }

  method SatisfactionIn(lua: Lua, installed: Installed, constraint: Option<string>) returns (r: Satisfaction)
    ensures r == SatisfactionOf(lua, installed, constraint)
  {
    match installed
    case Unknown(_) => r := Undecided;
    case NotFound => r := NotInstalled;
    case Found(versions, complete) =>
      var ok: seq<string> := [];
      for i := 0 to |versions|
        invariant ok == Matching(lua, constraint, versions[..i])
        invariant i > 0 ==> Recognised(lua, constraint)
      {
        assert versions[..i + 1][..i] == versions[..i];
        match ConstraintAccepts(lua, constraint, versions[i].version)
        case Some(true) => ok := ok + [versions[i].version];
        case Some(false) =>
        case None => return Undecided;
      }
      assert versions[..|versions|] == versions;
      r := if ok != [] then Satisfied(ok) else if complete then Unsatisfied(VersionTexts(versions)) else Undecided;
  }

  lemma {:induction false} MatchingMeaning(
    lua: Lua, constraint: Option<string>, versions: seq<InstalledVersion>, text: string)
    ensures text in Matching(lua, constraint, versions) <==>
      HasVersion(versions, text) && Accepts(lua, constraint, text)
  {
    if versions != [] {
      var before := versions[..|versions| - 1];
      MatchingMeaning(lua, constraint, before, text);
      if HasVersion(before, text) {
        var i :| 0 <= i < |before| && before[i].version == text;
        assert versions[i].version == text;
      }
    }
  }

  /** Every listed version that meets the constraint is named, as often as it is listed. */
  lemma {:induction false} MatchingNames(
    lua: Lua, constraint: Option<string>, versions: seq<InstalledVersion>, text: string)
    requires constraint.None? || lua.recognised(constraint.value)
    ensures multiset(Matching(lua, constraint, versions))[text] ==
      if constraint.None? || lua.meets(constraint.value, text) then multiset(VersionTexts(versions))[text] else 0
  {
    if versions != [] {
      var n := |versions| - 1;
      MatchingNames(lua, constraint, versions[..n], text);
      assert VersionTexts(versions) == VersionTexts(versions[..n]) + [versions[n].version];
    }
  }

  /** Each answer in terms of LuaRocks' own reading of the constraint: satisfied by exactly the listed versions that
      meet it, or by all without one; unsatisfied exactly when the list is complete and the constraint is understood
      and met by none of it. */
  lemma SatisfactionIs(lua: Lua, installed: Installed, constraint: Option<string>)
    ensures var r := SatisfactionOf(lua, installed, constraint);
      && (r.NotInstalled? <==> installed.NotFound?)
      && (r.Satisfied? <==>
            && installed.Found? && (constraint.Some? ==> lua.recognised(constraint.value))
            && exists i :: 0 <= i < |installed.versions|
                 && (constraint.Some? ==> lua.meets(constraint.value, installed.versions[i].version)))
      && (r.Satisfied? ==>
            forall text: string :: multiset(r.ok)[text] ==
              if constraint.None? || lua.meets(constraint.value, text)
              then multiset(VersionTexts(installed.versions))[text] else 0)
      && (r.Unsatisfied? <==>
            && installed.Found? && installed.complete
            && forall i :: 0 <= i < |installed.versions| ==>
                 constraint.Some? && lua.recognised(constraint.value)
                 && !lua.meets(constraint.value, installed.versions[i].version))
      && (r.Unsatisfied? ==>
            && |r.all| == |installed.versions|
            && forall i :: 0 <= i < |r.all| ==> r.all[i] == installed.versions[i].version)
  {
    if installed.Found? && (constraint.Some? ==> lua.recognised(constraint.value)) {
      var versions := installed.versions;
      forall text: string ensures multiset(Matching(lua, constraint, versions))[text] ==
        if constraint.None? || lua.meets(constraint.value, text) then multiset(VersionTexts(versions))[text] else 0
      {
        MatchingNames(lua, constraint, versions, text);
      }
      MatchingEmptyIff(lua, constraint, versions);
    }
  }

  lemma MatchingEmptyIff(lua: Lua, constraint: Option<string>, versions: seq<InstalledVersion>)
    requires constraint.Some? ==> lua.recognised(constraint.value)
    ensures Matching(lua, constraint, versions) == [] <==>
      forall i :: 0 <= i < |versions| ==> constraint.Some? && !lua.meets(constraint.value, versions[i].version)
  {
    var ok := Matching(lua, constraint, versions);
    if ok != [] {
      MatchingMeaning(lua, constraint, versions, ok[0]);
      assert ok[0] in ok;
    }
    forall i | ok == [] && 0 <= i < |versions|
      ensures constraint.Some? && !lua.meets(constraint.value, versions[i].version)
    {
      MatchingMeaning(lua, constraint, versions, versions[i].version);
    }
  }

  /** Satisfied, Unsatisfied and NotInstalled stand whatever is read later. */
  lemma SatisfactionStands(lua: Lua, p: Project, q: Project, rock: string, constraint: Option<string>)
    requires Refines(p, q)
    ensures var now := SatisfactionOf(lua, InstalledOf(p, rock), constraint);
      var later := SatisfactionOf(lua, InstalledOf(q, rock), constraint);
      && (now.NotInstalled? || now.Unsatisfied? ==> later == now)
      && (now.Satisfied? ==> later.Satisfied? && forall text :: text in now.ok ==> text in later.ok)
  {
    hide InstalledOf;
    InstalledStands(p, q, rock);
    var a, b := InstalledOf(p, rock), InstalledOf(q, rock);
    var now := SatisfactionOf(lua, a, constraint);
    if now.Satisfied? {
      forall text | text in now.ok ensures text in Matching(lua, constraint, b.versions) {
        MatchingMeaning(lua, constraint, a.versions, text);
        var i :| 0 <= i < |a.versions| && a.versions[i].version == text;
        assert a.versions[i] in b.versions;
        var j :| 0 <= j < |b.versions| && b.versions[j] == a.versions[i];
        MatchingMeaning(lua, constraint, b.versions, text);
      }
      assert now.ok[0] in Matching(lua, constraint, b.versions);
    }
  }

  /** With a constraint some version meets, the answer is left open exactly when reading the rest
      may satisfy it or not. */
  lemma UndecidedIff(lua: Lua, p: Project, rock: string, constraint: Option<string>, version: string)
    requires Accepts(lua, constraint, version)
    ensures SatisfactionOf(lua, InstalledOf(p, rock), constraint).Undecided? <==>
      exists q, r ::
        && CompletesTo(p, q) && SatisfactionOf(lua, InstalledOf(q, rock), constraint).Satisfied?
        && CompletesTo(p, r) && !SatisfactionOf(lua, InstalledOf(r, rock), constraint).Satisfied?
  {
    hide InstalledOf, SatisfactionOf, Fill;
    if SatisfactionOf(lua, InstalledOf(p, rock), constraint).Undecided? {
      var v := RockVersion(version, {});
      UndecidedUnread(lua, p, rock, constraint, version);
      FillCompletes(p, [Rock(rock, [v])]);
      FillCompletes(p, []);
      NothingTurnsUp(p, rock, Any());
      OneTurnsUp(p, rock, v, Any());
      SatisfiedIff(lua, Fill(p, [Rock(rock, [v])]), rock, constraint, version);
      SatisfiedIff(lua, Fill(p, []), rock, constraint, version);
      assert CompletesTo(p, Fill(p, [Rock(rock, [v])])) && CompletesTo(p, Fill(p, []));
    } else {
      forall q | CompletesTo(p, q)
        ensures SatisfactionOf(lua, InstalledOf(q, rock), constraint).Satisfied? <==>
          SatisfactionOf(lua, InstalledOf(p, rock), constraint).Satisfied?
      {
        SatisfactionStands(lua, p, q, rock, constraint);
      }
    }
  }

  /** Satisfied means some installed version is accepted. */
  lemma SatisfiedIff(lua: Lua, p: Project, rock: string, constraint: Option<string>, version: string)
    requires Accepts(lua, constraint, version)
    ensures SatisfactionOf(lua, InstalledOf(p, rock), constraint).Satisfied? <==>
      Matching(lua, constraint, AllVersions(p.stores, rock, Any())) != []
    ensures HasVersion(AllVersions(p.stores, rock, Any()), version) ==>
      SatisfactionOf(lua, InstalledOf(p, rock), constraint).Satisfied?
  {
    MatchingMeaning(lua, constraint, AllVersions(p.stores, rock, Any()), version);
  }

  lemma UndecidedUnread(lua: Lua, p: Project, rock: string, constraint: Option<string>, version: string)
    requires Accepts(lua, constraint, version) && SatisfactionOf(lua, InstalledOf(p, rock), constraint).Undecided?
    ensures Unread(p) > 0 && Matching(lua, constraint, AllVersions(p.stores, rock, Any())) == []
  {
  }

  // ------------------------------------------------------------ pins

  /** The version pinned for `name` in `scope`, by the first pin of the lockfile for it. */
  function PinnedVersion(pins: seq<(string, string, string)>, scope: string, name: string): Option<string> {
    if pins == [] then None
    else if pins[0].0 == scope && pins[0].1 == name then Some(pins[0].2)
    else PinnedVersion(pins[1..], scope, name)
  }

  function PresenceOf(installed: Installed, version: string): Presence {
    match installed
    case Found(versions, complete) => if HasVersion(versions, version) then Yes else if complete then No else Maybe
    case NotFound => No
    case Unknown(_) => Maybe
  }

  function PinFor(
    lua: Lua, p: Project, scope: string, name: string, constraint: Option<string>, installed: Installed): Pin
  {
    match p.lock
    case Absent => NoLockfile
    case Unreadable => LockUnknown
    case Pins(pins) =>
      match PinnedVersion(pins, scope, name)
      case None => NotPinned
      case Some(version) => Pinned(version, PresenceOf(installed, version), ConstraintAccepts(lua, constraint, version))
  }

  /** A pin is the lockfile's first for the name in its scope; whether it is installed goes by the listed versions, and
      whether it is allowed by LuaRocks' own reading of the constraint. */
  lemma PinIs(
    lua: Lua, p: Project, scope: string, name: string, constraint: Option<string>, installed: Installed)
    ensures var r := PinFor(lua, p, scope, name, constraint, installed);
      && (r.NoLockfile? <==> p.lock.Absent?) && (r.LockUnknown? <==> p.lock.Unreadable?)
      && (r.NotPinned? <==> p.lock.Pins? && forall pin :: pin in p.lock.pins ==> (pin.0, pin.1) != (scope, name))
      && (r.Pinned? ==>
            && (exists i :: 0 <= i < |p.lock.pins| && p.lock.pins[i] == (scope, name, r.version)
                  && forall j :: 0 <= j < i ==> (p.lock.pins[j].0, p.lock.pins[j].1) != (scope, name))
            && (r.installed == Yes <==>
                  installed.Found?
                  && exists i :: 0 <= i < |installed.versions| && installed.versions[i].version == r.version)
            && (r.installed == Maybe <==>
                  installed.Unknown? || (installed.Found? && !installed.complete && r.installed != Yes))
            && (r.satisfies == Some(true) <==>
                  constraint.None? || (lua.recognised(constraint.value) && lua.meets(constraint.value, r.version)))
            && (r.satisfies == None <==> constraint.Some? && !lua.recognised(constraint.value)))
  {
    if p.lock.Pins? { FirstPin(p.lock.pins, scope, name); }
  }

  lemma {:induction false} FirstPin(pins: seq<(string, string, string)>, scope: string, name: string)
    ensures var v := PinnedVersion(pins, scope, name);
      && (v.None? <==> forall pin :: pin in pins ==> (pin.0, pin.1) != (scope, name))
      && (v.Some? ==> exists i :: 0 <= i < |pins| && pins[i] == (scope, name, v.value)
                        && forall j :: 0 <= j < i ==> (pins[j].0, pins[j].1) != (scope, name))
  {
    if pins != [] {
      FirstPin(pins[1..], scope, name);
      var v := PinnedVersion(pins, scope, name);
      if v.Some? && (pins[0].0, pins[0].1) != (scope, name) {
        var i :| 0 <= i < |pins[1..]| && pins[1..][i] == (scope, name, v.value)
          && forall j :: 0 <= j < i ==> (pins[1..][j].0, pins[1..][j].1) != (scope, name);
        assert pins[i + 1] == (scope, name, v.value);
        forall j | 0 <= j < i + 1 ensures (pins[j].0, pins[j].1) != (scope, name) {
          if j > 0 { assert pins[j] == pins[1..][j - 1]; }
        }
      }
    }
  }

  /** Whether the pinned version is installed stands once it is known, and the rest of a pin does
      not depend on the stores. */
  lemma PinStands(lua: Lua, p: Project, q: Project, scope: string, rock: string, constraint: Option<string>)
    requires Refines(p, q)
    ensures var now := PinFor(lua, p, scope, rock, constraint, InstalledOf(p, rock));
      var later := PinFor(lua, q, scope, rock, constraint, InstalledOf(q, rock));
      if now.Pinned? then
        later.Pinned? && later.version == now.version && later.satisfies == now.satisfies
        && (now.installed != Maybe ==> later.installed == now.installed)
      else later == now
  {
    hide InstalledOf;
    InstalledStands(p, q, rock);
    var now := PinFor(lua, p, scope, rock, constraint, InstalledOf(p, rock));
    var a, b := InstalledOf(p, rock), InstalledOf(q, rock);
    if now.Pinned? && now.installed == Yes {
      var i :| 0 <= i < |a.versions| && a.versions[i].version == now.version;
      assert a.versions[i] in b.versions;
      var j :| 0 <= j < |b.versions| && b.versions[j] == a.versions[i];
    }
  }

  /** Whether a version is installed is left open exactly when reading the rest may decide it
      either way. */
  lemma MaybeIff(p: Project, rock: string, version: string)
    ensures PresenceOf(InstalledOf(p, rock), version) == Maybe <==>
      exists q, r ::
        && CompletesTo(p, q) && PresenceOf(InstalledOf(q, rock), version) == Yes
        && CompletesTo(p, r) && PresenceOf(InstalledOf(r, rock), version) == No
  {
    hide InstalledOf, Fill;
    AnswerOf(p, rock);
    if PresenceOf(InstalledOf(p, rock), version) == Maybe {
      var v := RockVersion(version, {});
      var q, r := Fill(p, [Rock(rock, [v])]), Fill(p, []);
      AnswerOf(q, rock);
      AnswerOf(r, rock);
      FillCompletes(p, [Rock(rock, [v])]);
      FillCompletes(p, []);
      NothingTurnsUp(p, rock, Any());
      OneTurnsUp(p, rock, v, Any());
      assert PresenceOf(InstalledOf(q, rock), version) == Yes;
      assert CompletesTo(p, q) && CompletesTo(p, r);
    } else {
      forall q | CompletesTo(p, q)
        ensures PresenceOf(InstalledOf(q, rock), version) == PresenceOf(InstalledOf(p, rock), version) {
        PresenceStands(p, q, rock, version);
      }
    }
  }

  lemma PresenceStands(p: Project, q: Project, rock: string, version: string)
    requires Refines(p, q) && PresenceOf(InstalledOf(p, rock), version) != Maybe
    ensures PresenceOf(InstalledOf(q, rock), version) == PresenceOf(InstalledOf(p, rock), version)
  {
    hide InstalledOf;
    InstalledStands(p, q, rock);
    var a, b := InstalledOf(p, rock), InstalledOf(q, rock);
    if PresenceOf(a, version) == Yes {
      var i :| 0 <= i < |a.versions| && a.versions[i].version == version;
      assert a.versions[i] in b.versions;
      var j :| 0 <= j < |b.versions| && b.versions[j] == a.versions[i];
    }
  }

  // ------------------------------------------------------------ where a module may come from

  /** The name under which a version lists the module, itself before its `init`. */
  function Via(modules: set<string>, m: string): Option<string> {
    if m in modules then Some(m) else if m + ".init" in modules then Some(m + ".init") else None
  }

  function ListsModule(m: string): RockVersion -> bool { (v: RockVersion) => Via(v.modules, m).Some? }

  function FirstVia(versions: seq<RockVersion>, m: string): Option<string> {
    if versions == [] then None
    else
      var before := FirstVia(versions[..|versions| - 1], m);
      if before.Some? then before else Via(versions[|versions| - 1].modules, m)
  }

  function ViaIn(s: Store, rock: string, m: string): Option<string> {
    match s.manifest case None => None case Some(rocks) => FirstVia(RockVersions(rocks, rock), m)
  }

  function AllVia(stores: seq<Store>, rock: string, m: string): Option<string> {
    if stores == [] then None
    else
      var before := AllVia(stores[..|stores| - 1], rock, m);
      if before.Some? then before else ViaIn(stores[|stores| - 1], rock, m)
  }

  /** What is collected for one rock: the versions that list the module, and the first name found. */
  datatype Slot = Slot(versions: seq<InstalledVersion>, via: string)

  function Versions(byRock: map<string, Slot>, rock: string): seq<InstalledVersion> {
    if rock in byRock then byRock[rock].versions else []
  }

  function ViaOf(byRock: map<string, Slot>, rock: string): Option<string> {
    if rock in byRock then Some(byRock[rock].via) else None
  }

  function Or<T>(a: Option<T>, b: Option<T>): Option<T> { if a.Some? then a else b }

  /** A store lists no rock twice. */
  ghost predicate DistinctRocks(rocks: seq<Rock>) {
    forall i, j :: 0 <= i < j < |rocks| ==> rocks[i].name != rocks[j].name
  }

  ghost predicate WellFormed(p: Project) {
    forall i :: 0 <= i < |p.stores| && p.stores[i].manifest.Some? ==> DistinctRocks(p.stores[i].manifest.value)
  }

  lemma {:induction false} RockVersionsSnoc(rocks: seq<Rock>, r: Rock, rock: string)
    requires DistinctRocks(rocks + [r])
    ensures rock != r.name ==> RockVersions(rocks + [r], rock) == RockVersions(rocks, rock)
    ensures RockVersions(rocks + [r], r.name) == r.versions && RockVersions(rocks, r.name) == []
  {
    var all := rocks + [r];
    if rocks != [] {
      assert all[1..] == rocks[1..] + [r];
      assert all[0] == rocks[0] && all[|rocks|] == r;
      forall i, j | 0 <= i < j < |all[1..]| ensures all[1..][i].name != all[1..][j].name {
        assert all[i + 1].name != all[j + 1].name;
      }
      RockVersionsSnoc(rocks[1..], r, rock);
    }
  }

  lemma NextVersion(versions: seq<RockVersion>, k: nat, s: Store, m: string)
    requires k < |versions|
    ensures var before, via := Tagged(versions[..k], s, ListsModule(m)), Via(versions[k].modules, m);
      && Tagged(versions[..k + 1], s, ListsModule(m)) ==
         (if via.Some? then before + [InstalledVersion(versions[k].version, s.lua, s.tree)] else before)
      && FirstVia(versions[..k + 1], m) == Or(FirstVia(versions[..k], m), via)
  {
    assert versions[..k + 1][..k] == versions[..k];
  }

  /** One more version collected for a rock. */
  function Collected(byRock: map<string, Slot>, rock: string, v: InstalledVersion, via: string): map<string, Slot> {
    var slot := if rock in byRock then byRock[rock] else Slot([], via);
    byRock[rock := slot.(versions := slot.versions + [v])]
  }

  lemma CollectedIs(byRock: map<string, Slot>, rock: string, v: InstalledVersion, via: string)
    ensures var r := Collected(byRock, rock, v, via);
      && Versions(r, rock) == Versions(byRock, rock) + [v] && ViaOf(r, rock) == Or(ViaOf(byRock, rock), Some(via))
      && forall other :: other != rock ==>
           Versions(r, other) == Versions(byRock, other) && ViaOf(r, other) == ViaOf(byRock, other)
  {
  }

  method CollectRock(byRock0: map<string, Slot>, rock: Rock, s: Store, m: string) returns (byRock: map<string, Slot>)
    ensures Versions(byRock, rock.name) == Versions(byRock0, rock.name) + Tagged(rock.versions, s, ListsModule(m))
    ensures ViaOf(byRock, rock.name) == Or(ViaOf(byRock0, rock.name), FirstVia(rock.versions, m))
    ensures forall other :: other != rock.name ==>
      Versions(byRock, other) == Versions(byRock0, other) && ViaOf(byRock, other) == ViaOf(byRock0, other)
  {
    hide Tagged, FirstVia, Via, Versions, ViaOf, Collected, ListsModule;
    byRock := byRock0;
    NoVersions(s, m);
    for k := 0 to |rock.versions|
      invariant Versions(byRock, rock.name) ==
        Versions(byRock0, rock.name) + Tagged(rock.versions[..k], s, ListsModule(m))
      invariant ViaOf(byRock, rock.name) == Or(ViaOf(byRock0, rock.name), FirstVia(rock.versions[..k], m))
      invariant forall other :: other != rock.name ==>
        Versions(byRock, other) == Versions(byRock0, other) && ViaOf(byRock, other) == ViaOf(byRock0, other)
    {
      var v := rock.versions[k];
      NextVersion(rock.versions, k, s, m);
      var via := Via(v.modules, m);
      if via.Some? {
        CollectedIs(byRock, rock.name, InstalledVersion(v.version, s.lua, s.tree), via.value);
        byRock := Collected(byRock, rock.name, InstalledVersion(v.version, s.lua, s.tree), via.value);
      }
    }
    assert rock.versions[..|rock.versions|] == rock.versions;
  }

  lemma NoVersions(s: Store, m: string)
    ensures Tagged([], s, ListsModule(m)) == [] && FirstVia([], m) == None
  {
  }

  method CollectStore(byRock0: map<string, Slot>, s: Store, m: string) returns (byRock: map<string, Slot>)
    requires s.manifest.Some? && DistinctRocks(s.manifest.value)
    ensures forall rock :: Versions(byRock, rock) == Versions(byRock0, rock) + VersionsIn(s, rock, ListsModule(m))
    ensures forall rock :: ViaOf(byRock, rock) == Or(ViaOf(byRock0, rock), ViaIn(s, rock, m))
  {
    byRock := byRock0;
    var rocks := s.manifest.value;
    for j := 0 to |rocks|
      invariant forall rock ::
        Versions(byRock, rock) == Versions(byRock0, rock) + Tagged(RockVersions(rocks[..j], rock), s, ListsModule(m))
      invariant forall rock ::
        ViaOf(byRock, rock) == Or(ViaOf(byRock0, rock), FirstVia(RockVersions(rocks[..j], rock), m))
    {
      hide Versions, ViaOf, ListsModule;
      ghost var before := byRock;
      byRock := CollectRock(byRock, rocks[j], s, m);
      NextRock(rocks, j);
      assert Versions(byRock0, rocks[j].name) + [] == Versions(byRock0, rocks[j].name);
    }
    assert rocks[..|rocks|] == rocks;
  }

  lemma NextRock(rocks: seq<Rock>, j: nat)
    requires j < |rocks| && DistinctRocks(rocks)
    ensures forall rock :: rock != rocks[j].name ==>
      RockVersions(rocks[..j + 1], rock) == RockVersions(rocks[..j], rock)
    ensures RockVersions(rocks[..j + 1], rocks[j].name) == rocks[j].versions
    ensures RockVersions(rocks[..j], rocks[j].name) == []
  {
    assert rocks[..j + 1] == rocks[..j] + [rocks[j]];
    RockVersionsSnoc(rocks[..j], rocks[j], rocks[j].name);
    forall rock | rock != rocks[j].name ensures RockVersions(rocks[..j + 1], rock) == RockVersions(rocks[..j], rock) {
      RockVersionsSnoc(rocks[..j], rocks[j], rock);
    }
  }

  /** The rocks whose read stores list the module, with every version that does. */
  method OriginIn(p: Project, m: string) returns (byRock: map<string, Slot>, complete: bool)
    requires WellFormed(p)
    ensures forall rock :: Versions(byRock, rock) == AllVersions(p.stores, rock, ListsModule(m))
    ensures forall rock :: ViaOf(byRock, rock) == AllVia(p.stores, rock, m)
    ensures complete <==> Complete(p)
  {
    hide Versions, ViaOf, ListsModule, AllVersions, AllVia, UnreadStores;
    byRock := map[];
    var unread := if p.extraUnknown then 1 else 0;
    NothingCollected(m);
    for i := 0 to |p.stores|
      invariant forall rock :: Versions(byRock, rock) == AllVersions(p.stores[..i], rock, ListsModule(m))
      invariant forall rock :: ViaOf(byRock, rock) == AllVia(p.stores[..i], rock, m)
      invariant unread == UnreadStores(p.stores[..i]) + (if p.extraUnknown then 1 else 0)
    {
      NextStore(p.stores, i, m);
      match p.stores[i].manifest
      case None => unread := unread + 1;
      case Some(_) => byRock := CollectStore(byRock, p.stores[i], m);
    }
    assert p.stores[..|p.stores|] == p.stores;
    complete := unread == 0;
  }

  lemma NothingCollected(m: string)
    ensures UnreadStores([]) == 0
    ensures forall rock ::
      Versions(map[], rock) == AllVersions([], rock, ListsModule(m)) && ViaOf(map[], rock) == AllVia([], rock, m)
  {
  }

  lemma NextStore(stores: seq<Store>, i: nat, m: string)
    requires i < |stores|
    ensures UnreadStores(stores[..i + 1]) == UnreadStores(stores[..i]) + (if stores[i].manifest.None? then 1 else 0)
    ensures stores[i].manifest.None? ==>
      forall rock ::
        AllVersions(stores[..i + 1], rock, ListsModule(m)) == AllVersions(stores[..i], rock, ListsModule(m))
    ensures stores[i].manifest.None? ==> forall rock :: AllVia(stores[..i + 1], rock, m) == AllVia(stores[..i], rock, m)
    ensures stores[i].manifest.Some? ==>
      forall rock :: AllVersions(stores[..i + 1], rock, ListsModule(m)) ==
        AllVersions(stores[..i], rock, ListsModule(m)) + VersionsIn(stores[i], rock, ListsModule(m))
    ensures stores[i].manifest.Some? ==>
      forall rock :: AllVia(stores[..i + 1], rock, m) == Or(AllVia(stores[..i], rock, m), ViaIn(stores[i], rock, m))
  {
    assert stores[..i + 1][..i] == stores[..i];
    forall rock | stores[i].manifest.None?
      ensures AllVersions(stores[..i], rock, ListsModule(m)) + VersionsIn(stores[i], rock, ListsModule(m)) ==
        AllVersions(stores[..i], rock, ListsModule(m))
    {}
  }

  /** The list of providers is called complete exactly when no source can add to it; otherwise
      every version listed stays listed. */
  lemma OriginCompleteIff(p: Project, m: string, rock: string)
    ensures Complete(p) <==>
      forall q :: CompletesTo(p, q) ==>
        AllVersions(q.stores, rock, ListsModule(m)) == AllVersions(p.stores, rock, ListsModule(m))
  {
    if Complete(p) {
      forall q | CompletesTo(p, q) ensures q == p { NothingMore(p, q); }
    } else {
      var v := RockVersion("1", {m});
      FillCompletes(p, [Rock(rock, [v])]);
      OneTurnsUp(p, rock, v, ListsModule(m));
      assert CompletesTo(p, Fill(p, [Rock(rock, [v])]));
    }
  }

  lemma OriginStands(p: Project, q: Project, m: string, rock: string)
    requires Refines(p, q)
    ensures forall v :: v in AllVersions(p.stores, rock, ListsModule(m)) ==>
      v in AllVersions(q.stores, rock, ListsModule(m))
    ensures AllVia(p.stores, rock, m).Some? ==> AllVia(q.stores, rock, m).Some?
  {
    forall v | v in AllVersions(p.stores, rock, ListsModule(m))
      ensures v in AllVersions(q.stores, rock, ListsModule(m)) {
      MoreVersions(p.stores, q.stores, rock, v, ListsModule(m));
    }
    ViaIffListed(p.stores, rock, m);
    ViaIffListed(q.stores, rock, m);
    if AllVersions(p.stores, rock, ListsModule(m)) != [] {
      assert AllVersions(p.stores, rock, ListsModule(m))[0] in AllVersions(p.stores, rock, ListsModule(m));
    }
  }

  lemma {:induction false} ViaIffListed(stores: seq<Store>, rock: string, m: string)
    ensures AllVia(stores, rock, m).Some? <==> AllVersions(stores, rock, ListsModule(m)) != []
  {
    if stores != [] {
      ViaIffListed(stores[..|stores| - 1], rock, m);
      var s := stores[|stores| - 1];
      if s.manifest.Some? { FirstViaIff(RockVersions(s.manifest.value, rock), s, m); }
    }
  }

  lemma {:induction false} FirstViaIff(versions: seq<RockVersion>, s: Store, m: string)
    ensures FirstVia(versions, m).Some? <==> Tagged(versions, s, ListsModule(m)) != []
  {
    if versions != [] { FirstViaIff(versions[..|versions| - 1], s, m); }
  }

  // ------------------------------------------------------------ what the stores hold

  /** A store that was read holds `v` as version `k` of the rock. */
  ghost predicate Holds(s: Store, rock: string, k: nat, v: RockVersion) {
    && s.manifest.Some?
    && exists j :: 0 <= j < |s.manifest.value| && s.manifest.value[j].name == rock
                   && k < |s.manifest.value[j].versions| && s.manifest.value[j].versions[k] == v
  }

  lemma {:induction false} RockVersionsAre(rocks: seq<Rock>, rock: string, j: nat)
    requires DistinctRocks(rocks)
    ensures j < |rocks| && rocks[j].name == rock ==> RockVersions(rocks, rock) == rocks[j].versions
    ensures RockVersions(rocks, rock) != [] ==> exists i :: 0 <= i < |rocks| && rocks[i].name == rock
  {
    if rocks != [] {
      forall a, b | 0 <= a < b < |rocks[1..]| ensures rocks[1..][a].name != rocks[1..][b].name {
        assert rocks[a + 1].name != rocks[b + 1].name;
      }
      RockVersionsAre(rocks[1..], rock, if j > 0 then j - 1 else 0);
      if i :| 0 <= i < |rocks[1..]| && rocks[1..][i].name == rock { assert rocks[i + 1].name == rock; }
    }
  }

  lemma HoldsIff(s: Store, rock: string, k: nat, v: RockVersion)
    requires s.manifest.Some? && DistinctRocks(s.manifest.value)
    ensures Holds(s, rock, k, v) <==>
      k < |RockVersions(s.manifest.value, rock)| && RockVersions(s.manifest.value, rock)[k] == v
  {
    var rocks := s.manifest.value;
    RockVersionsAre(rocks, rock, 0);
    forall j: nat | j < |rocks| && rocks[j].name == rock ensures RockVersions(rocks, rock) == rocks[j].versions {
      RockVersionsAre(rocks, rock, j);
    }
  }

  /** And lists it as `v`. */
  ghost predicate HoldsAs(s: Store, rock: string, v: InstalledVersion) {
    exists k, h :: Holds(s, rock, k, h) && v == InstalledVersion(h.version, s.lua, s.tree)
  }

  /** The installed versions are those the read stores hold, each with its store; the answer is complete exactly when
      every store was read and there can be no other, and otherwise counts what was not. */
  lemma InstalledIs(p: Project, rock: string)
    requires WellFormed(p)
    ensures var r, read := InstalledOf(p, rock), !p.extraUnknown && forall s :: s in p.stores ==> s.manifest.Some?;
      && (r.Found? <==> exists i, v :: 0 <= i < |p.stores| && HoldsAs(p.stores[i], rock, v))
      && (r.Found? ==>
            forall v :: v in r.versions <==> exists i :: 0 <= i < |p.stores| && HoldsAs(p.stores[i], rock, v))
      && (r.Found? ==> (r.complete <==> read))
      && (r.NotFound? ==> read)
      && (r.Unknown? ==>
            !read && r.unread ==
              |set i: nat | i < |p.stores| && p.stores[i].manifest.None?| + (if p.extraUnknown then 1 else 0))
  {
    hide InstalledOf, HoldsAs;
    AnswerOf(p, rock);
    ReadAll(p.stores);
    UnreadAre(p.stores);
    UnknownCounts(p, rock);
    var all := AllVersions(p.stores, rock, Any());
    forall v ensures v in all <==> exists i :: 0 <= i < |p.stores| && HoldsAs(p.stores[i], rock, v) {
      AllHeld(p.stores, rock, v);
    }
    if all != [] { assert all[0] in all; }
    if i, v :| 0 <= i < |p.stores| && HoldsAs(p.stores[i], rock, v) { assert v in all; }
  }

  lemma UnknownCounts(p: Project, rock: string)
    ensures InstalledOf(p, rock).Unknown? ==> InstalledOf(p, rock).unread == Unread(p)
  {
  }

  lemma {:induction false} UnreadAre(stores: seq<Store>)
    ensures UnreadStores(stores) == |set i: nat | i < |stores| && stores[i].manifest.None?|
  {
    var unread := set i: nat | i < |stores| && stores[i].manifest.None?;
    if stores == [] {
      assert unread == {};
    } else {
      var n := |stores| - 1;
      UnreadAre(stores[..n]);
      var before := set i: nat | i < |stores[..n]| && stores[..n][i].manifest.None?;
      assert unread == before + (if stores[n].manifest.None? then {n as nat} else {});
    }
  }

  lemma {:induction false} AllHeld(stores: seq<Store>, rock: string, v: InstalledVersion)
    requires forall i :: 0 <= i < |stores| && stores[i].manifest.Some? ==> DistinctRocks(stores[i].manifest.value)
    ensures v in AllVersions(stores, rock, Any()) <==> exists i :: 0 <= i < |stores| && HoldsAs(stores[i], rock, v)
  {
    hide HoldsAs, VersionsIn;
    if stores != [] {
      var n := |stores| - 1;
      AllHeld(stores[..n], rock, v);
      StoreHeld(stores[n], rock, v);
      if i :| 0 <= i < |stores[..n]| && HoldsAs(stores[..n][i], rock, v) { assert HoldsAs(stores[i], rock, v); }
      if i :| 0 <= i < |stores| && HoldsAs(stores[i], rock, v) {
        if i < n { assert HoldsAs(stores[..n][i], rock, v); }
      }
    }
  }

  lemma StoreHeld(s: Store, rock: string, v: InstalledVersion)
    requires s.manifest.Some? ==> DistinctRocks(s.manifest.value)
    ensures v in VersionsIn(s, rock, Any()) <==> HoldsAs(s, rock, v)
  {
    hide Tagged, RockVersions, Holds;
    if s.manifest.Some? {
      var versions := RockVersions(s.manifest.value, rock);
      TaggedAny(versions, s, v);
      forall k: nat, h
        ensures Holds(s, rock, k, h) <==> k < |versions| && versions[k] == h { HoldsIff(s, rock, k, h); }
      if k: nat :| k < |versions| && v == InstalledVersion(versions[k].version, s.lua, s.tree) {
        assert Holds(s, rock, k, versions[k]);
      }
    } else {
      assert forall k, h :: !Holds(s, rock, k, h) by { NotRead(s, rock); }
    }
  }

  lemma NotRead(s: Store, rock: string)
    requires s.manifest.None?
    ensures forall k, h :: !Holds(s, rock, k, h)
  {
  }

  lemma {:induction false} TaggedAny(versions: seq<RockVersion>, s: Store, v: InstalledVersion)
    ensures v in Tagged(versions, s, Any()) <==>
      exists k: nat :: k < |versions| && v == InstalledVersion(versions[k].version, s.lua, s.tree)
  {
    if versions != [] {
      var n := |versions| - 1;
      TaggedAny(versions[..n], s, v);
      if k: nat :| k < n && v == InstalledVersion(versions[..n][k].version, s.lua, s.tree) {
        assert versions[k] == versions[..n][k];
      }
      if k: nat :| k < |versions| && v == InstalledVersion(versions[k].version, s.lua, s.tree) {
        if k < n { assert versions[k] == versions[..n][k]; }
      }
    }
  }

  /** A version is listed exactly when some read store has it under the rock with the module. */
  lemma {:induction false} ListedIff(stores: seq<Store>, rock: string, m: string, v: InstalledVersion)
    ensures v in AllVersions(stores, rock, ListsModule(m)) <==>
      exists i :: 0 <= i < |stores| && StoreLists(stores[i], rock, m, v)
  {
    hide StoreLists, VersionsIn;
    if stores != [] {
      var n := |stores| - 1;
      ListedIff(stores[..n], rock, m, v);
      StoreListsIff(stores[n], rock, m, v);
      if i :| 0 <= i < n && StoreLists(stores[..n][i], rock, m, v) { assert StoreLists(stores[i], rock, m, v); }
    }
  }

  lemma StoreListsIff(s: Store, rock: string, m: string, v: InstalledVersion)
    ensures v in VersionsIn(s, rock, ListsModule(m)) <==> StoreLists(s, rock, m, v)
  {
    hide Tagged;
    if s.manifest.Some? { TaggedIff(RockVersions(s.manifest.value, rock), s, m, v); }
  }

  ghost predicate StoreLists(s: Store, rock: string, m: string, v: InstalledVersion) {
    && s.manifest.Some? && v.lua == s.lua && v.tree == s.tree
    && exists k ::
         k in RockVersions(s.manifest.value, rock) && k.version == v.version
         && (m in k.modules || m + ".init" in k.modules)
  }

  lemma {:induction false} TaggedIff(versions: seq<RockVersion>, s: Store, m: string, v: InstalledVersion)
    ensures v in Tagged(versions, s, ListsModule(m)) <==>
      v.lua == s.lua && v.tree == s.tree
      && exists k :: k in versions && k.version == v.version && (m in k.modules || m + ".init" in k.modules)
  {
    if versions != [] {
      var n := |versions| - 1;
      TaggedIff(versions[..n], s, m, v);
      assert forall k :: k in versions <==> k in versions[..n] || k == versions[n];
    }
  }

  predicate Provides(h: RockVersion, m: string) { m in h.modules || m + ".init" in h.modules }

  /** So does what is listed for a module: exactly the versions held that have it or its `init`. */
  lemma StoreListsIs(s: Store, rock: string, m: string, v: InstalledVersion)
    requires s.manifest.Some? ==> DistinctRocks(s.manifest.value)
    ensures StoreLists(s, rock, m, v) <==>
      exists k, h :: Holds(s, rock, k, h) && Provides(h, m) && v == InstalledVersion(h.version, s.lua, s.tree)
  {
    hide RockVersions, Holds;
    if s.manifest.Some? {
      var versions := RockVersions(s.manifest.value, rock);
      forall k: nat, h
        ensures Holds(s, rock, k, h) <==> k < |versions| && versions[k] == h { HoldsIff(s, rock, k, h); }
      if h :| h in versions && h.version == v.version && Provides(h, m) && v.lua == s.lua && v.tree == s.tree {
        var k: nat :| k < |versions| && versions[k] == h;
        assert Holds(s, rock, k, h);
      }
    } else {
      NotRead(s, rock);
    }
  }

  /** Version `k` held in store `i` is the first that has the module. */
  ghost predicate FirstProvider(stores: seq<Store>, rock: string, m: string, i: nat, k: nat, h: RockVersion) {
    && i < |stores| && Holds(stores[i], rock, k, h) && Provides(h, m)
    && (forall l: nat, o :: l < k && Holds(stores[i], rock, l, o) ==> !Provides(o, m))
    && forall j, l: nat, o :: 0 <= j < i && Holds(stores[j], rock, l, o) ==> !Provides(o, m)
  }

  /** The name a module is found by is that of the first version that has it, itself before its `init`. */
  lemma {:induction false} ViaIs(stores: seq<Store>, rock: string, m: string)
    requires forall i :: 0 <= i < |stores| && stores[i].manifest.Some? ==> DistinctRocks(stores[i].manifest.value)
    ensures AllVia(stores, rock, m).None? ==>
      forall i, k, h :: 0 <= i < |stores| && Holds(stores[i], rock, k, h) ==> !Provides(h, m)
    ensures AllVia(stores, rock, m).Some? ==>
      exists i, k, h :: FirstProvider(stores, rock, m, i, k, h)
        && AllVia(stores, rock, m).value == if m in h.modules then m else m + ".init"
  {
    hide Holds, Provides, ViaIn;
    if stores != [] {
      var n := |stores| - 1;
      var before := stores[..n];
      ViaIs(before, rock, m);
      StoreVia(stores[n], rock, m);
      if AllVia(before, rock, m).Some? {
        var i: nat, k: nat, h :| FirstProvider(before, rock, m, i, k, h)
          && AllVia(before, rock, m).value == if m in h.modules then m else m + ".init";
        assert FirstProvider(stores, rock, m, i, k, h);
      } else if ViaIn(stores[n], rock, m).Some? {
        var k: nat, h :| FirstInStore(stores[n], rock, m, k, h)
          && ViaIn(stores[n], rock, m).value == if m in h.modules then m else m + ".init";
        assert FirstProvider(stores, rock, m, n, k, h);
      }
    }
  }

  ghost predicate FirstInStore(s: Store, rock: string, m: string, k: nat, h: RockVersion) {
    Holds(s, rock, k, h) && Provides(h, m) && forall l: nat, o :: l < k && Holds(s, rock, l, o) ==> !Provides(o, m)
  }

  lemma StoreVia(s: Store, rock: string, m: string)
    requires s.manifest.Some? ==> DistinctRocks(s.manifest.value)
    ensures ViaIn(s, rock, m).None? ==> forall k, h :: Holds(s, rock, k, h) ==> !Provides(h, m)
    ensures ViaIn(s, rock, m).Some? ==>
      exists k, h :: FirstInStore(s, rock, m, k, h)
        && ViaIn(s, rock, m).value == if m in h.modules then m else m + ".init"
  {
    hide RockVersions, Holds;
    if s.manifest.Some? {
      var versions := RockVersions(s.manifest.value, rock);
      forall k: nat, h
        ensures Holds(s, rock, k, h) <==> k < |versions| && versions[k] == h { HoldsIff(s, rock, k, h); }
      FirstViaIs(versions, m);
      if FirstVia(versions, m).Some? {
        var k: nat :| FirstAt(versions, m, k);
        assert FirstInStore(s, rock, m, k, versions[k]);
      }
    } else {
      NotRead(s, rock);
    }
  }

  ghost predicate FirstAt(versions: seq<RockVersion>, m: string, k: nat) {
    k < |versions| && Provides(versions[k], m) && forall l :: 0 <= l < k ==> !Provides(versions[l], m)
  }

  lemma {:induction false} FirstViaIs(versions: seq<RockVersion>, m: string)
    ensures FirstVia(versions, m).None? ==> forall k :: 0 <= k < |versions| ==> !Provides(versions[k], m)
    ensures FirstVia(versions, m).Some? ==> exists k: nat :: FirstAt(versions, m, k)
    ensures forall k: nat :: FirstAt(versions, m, k) ==>
      FirstVia(versions, m) == Some(if m in versions[k].modules then m else m + ".init")
  {
    hide Provides, Via;
    if versions != [] {
      var n := |versions| - 1;
      FirstViaIs(versions[..n], m);
      ProvidesVia(versions[n], m);
      if k: nat :| FirstAt(versions[..n], m, k) { assert FirstAt(versions, m, k); }
      forall k: nat | FirstAt(versions, m, k)
        ensures FirstVia(versions, m) == Some(if m in versions[k].modules then m else m + ".init")
      {
        if k < n { assert FirstAt(versions[..n], m, k); }
      }
      if FirstVia(versions[..n], m).None? && Provides(versions[n], m) { assert FirstAt(versions, m, n); }
    }
  }

  lemma ProvidesVia(h: RockVersion, m: string)
    ensures Provides(h, m) <==> Via(h.modules, m).Some?
    ensures Provides(h, m) ==> Via(h.modules, m).value == if m in h.modules then m else m + ".init"
  {
  }
}
