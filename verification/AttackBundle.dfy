/** The ATT&CK rows, the bundles they are synced from, and what a sync owes: the last usable object of each id. */
module AttackBundle {
  import opened Wrappers
  import opened Text

  // ---------------------------------------------------------------- bundles

  datatype ExternalRef = ExternalRef(source: Option<string>, externalId: Option<string>, url: Option<string>)

  datatype Phase = Phase(chain: Option<string>, name: Option<string>)

  datatype StixObject = StixObject(
    kind: string, revoked: bool, deprecated: bool, refs: seq<ExternalRef>,
    name: Option<string>, shortName: Option<string>, description: Option<string>,
    isSub: bool, phases: seq<Phase>)

  const TACTIC := "x-mitre-tactic"
  const TECHNIQUE := "attack-pattern"
  const MITRE := "mitre-attack"

  /** `_external_id_and_url`: from the first MITRE reference, whether or not it has an id. */
  function ExternalIdAndUrl(refs: seq<ExternalRef>): (Option<string>, Option<string>) {
    if refs == [] then (None, None)
    else if refs[0].source == Some(MITRE) then (refs[0].externalId, refs[0].url)
    else ExternalIdAndUrl(refs[1..])
  }

  function UrlOf(o: StixObject): Option<string> {
    ExternalIdAndUrl(o.refs).1
  }

  predicate Usable(o: StixObject, kind: string) {
    o.kind == kind && !o.revoked && !o.deprecated && ExternalIdAndUrl(o.refs).0 !in {None, Some("")}
  }

  function IdOf(o: StixObject): string {
    ExternalIdAndUrl(o.refs).0.GetOr("")
  }

  // ---------------------------------------------------------------- rows

  datatype TacticRow = TacticRow(id: nat, name: string, shortName: string, description: Option<string>, url: Option<string>)

  datatype TechniqueRow = TechniqueRow(
    id: nat, name: string, description: Option<string>, isSub: bool, parent: Option<nat>,
    url: Option<string>, syncedAt: int, tactics: set<nat>)

  /** Both tables, each keyed by its unique ATT&CK id, with the row id each would hand out next. */
  datatype Store = Store(tactics: map<string, TacticRow>, nextTactic: nat,
                         techniques: map<string, TechniqueRow>, nextTechnique: nat)

  const EMPTY := Store(map[], 1, map[], 1)

  function TacticIds(rows: map<string, TacticRow>): map<string, nat> {
    map k | k in rows :: rows[k].id
  }

  function TechniqueIds(rows: map<string, TechniqueRow>): map<string, nat> {
    map k | k in rows :: rows[k].id
  }

  // ---------------------------------------------------------------- what a sync owes

  /** The last usable object of an id. */
  function Last(objects: seq<StixObject>, kind: string, id: string): (r: Option<StixObject>)
    ensures r.Some? ==> r.value in objects && Usable(r.value, kind) && IdOf(r.value) == id
    ensures r.None? ==> forall o <- objects :: !(Usable(o, kind) && IdOf(o) == id)
  {
    if objects == [] then None
    else
      var o := objects[|objects| - 1];
      if Usable(o, kind) && IdOf(o) == id then Some(o) else Last(objects[..|objects| - 1], kind, id)
  }

  function ShortNameOf(o: StixObject): string {
    o.shortName.GetOr("")
  }

  /** The id of the last usable tactic with a short name. */
  function Owner(objects: seq<StixObject>, shortName: string): (r: Option<string>)
    ensures r.Some? ==> Last(objects, TACTIC, r.value).Some?
  {
    if objects == [] then None
    else
      var o := objects[|objects| - 1];
      var before := Owner(objects[..|objects| - 1], shortName);
      if Usable(o, TACTIC) && ShortNameOf(o) == shortName then Some(IdOf(o)) else before
  }

  /** How many objects of a kind are usable, repeated ids included. */
  function UsableCount(objects: seq<StixObject>, kind: string): nat {
    if objects == [] then 0
    else UsableCount(objects[..|objects| - 1], kind) + (if Usable(objects[|objects| - 1], kind) then 1 else 0)
  }

  /** The short names of an object's MITRE phases. */
  function PhaseNames(phases: seq<Phase>): set<Option<string>> {
    set p | p in phases && p.chain == Some(MITRE) :: p.name
  }

  function ParentId(id: string): string {
    BeforeFirst(id, '.')
  }

  function WrittenTactic(o: StixObject, id: nat): TacticRow {
    TacticRow(id, o.name.GetOr(""), ShortNameOf(o), o.description, UrlOf(o))
  }

  /** The tactic rows an object's phases name, among the tactics of the same bundle. */
  function PhaseTactics(objects: seq<StixObject>, tactics: map<string, TacticRow>, o: StixObject): set<nat>
    requires forall id :: Last(objects, TACTIC, id).Some? ==> id in tactics
  {
    set name | name in PhaseNames(o.phases) && name.Some? && Owner(objects, name.value).Some?
      :: tactics[Owner(objects, name.value).value].id
  }

  /** The parent a sync leaves a technique with: re-resolved for a dotted sub-technique, otherwise as it was. */
  function SyncedParent(objects: seq<StixObject>, techniques: map<string, TechniqueRow>, id: string, isSub: bool,
                        was: Option<nat>): Option<nat>
    requires forall k :: Last(objects, TECHNIQUE, k).Some? ==> k in techniques
  {
    if isSub && '.' in id then
      if Last(objects, TECHNIQUE, ParentId(id)).Some? then Some(techniques[ParentId(id)].id) else None
    else was
  }

  function ParentBefore(rows: map<string, TechniqueRow>, id: string): Option<nat> {
    if id in rows then rows[id].parent else None
  }

  /** Old rows keep their row ids; new ones take the next ones, each once. */
  predicate Grown(ids0: map<string, nat>, next0: nat, ids1: map<string, nat>, next1: nat) {
    && next0 <= next1 == next0 + |ids1| - |ids0|
    && (forall k <- ids0 :: k in ids1 && ids1[k] == ids0[k])
    && (forall k <- ids1 :: k !in ids0 ==> next0 <= ids1[k] < next1)
    && (forall k, l :: k in ids1 && l in ids1 && k !in ids0 && l !in ids0 && ids1[k] == ids1[l] ==> k == l)
  }

  /** Row ids below the next one, no two alike. */
  predicate Numbered(ids: map<string, nat>, next: nat) {
    && (forall k <- ids :: ids[k] < next)
    && (forall k, l :: k in ids && l in ids && ids[k] == ids[l] ==> k == l)
  }

  /** A tactic is in the table when it was or the bundle has it, and is then what its last usable object says. */
  ghost predicate TacticDue(rows0: map<string, TacticRow>, objects: seq<StixObject>, rows1: map<string, TacticRow>, id: string) {
    var o := Last(objects, TACTIC, id);
    && (id in rows1 <==> id in rows0 || o.Some?)
    && (id in rows1 ==> rows1[id] == if o.Some? then WrittenTactic(o.value, rows1[id].id) else rows0[id])
  }

  ghost predicate TacticsSynced(s0: Store, objects: seq<StixObject>, s1: Store) {
    && (forall id :: TacticDue(s0.tactics, objects, s1.tactics, id))
    && Grown(TacticIds(s0.tactics), s0.nextTactic, TacticIds(s1.tactics), s1.nextTactic)
  }

  /** A technique's row as the second loop writes it. */
  function WrittenTechnique(o: StixObject, id: nat, parent: Option<nat>, now: int, tactics: set<nat>): TechniqueRow {
    TechniqueRow(id, o.name.GetOr(""), o.description, o.isSub, parent, UrlOf(o), now, tactics)
  }

  ghost predicate TechniquePresent(rows0: map<string, TechniqueRow>, objects: seq<StixObject>,
                                   rows1: map<string, TechniqueRow>, id: string)
  {
    id in rows1 <==> id in rows0 || Last(objects, TECHNIQUE, id).Some?
  }

  ghost predicate TechniquesPresent(s0: Store, objects: seq<StixObject>, s1: Store) {
    && (forall id :: TechniquePresent(s0.techniques, objects, s1.techniques, id))
    && Grown(TechniqueIds(s0.techniques), s0.nextTechnique, TechniqueIds(s1.techniques), s1.nextTechnique)
  }

  lemma SyncedKeys(s0: Store, objects: seq<StixObject>, s1: Store)
    ensures TacticsSynced(s0, objects, s1) ==> forall k :: Last(objects, TACTIC, k).Some? ==> k in s1.tactics
    ensures TechniquesPresent(s0, objects, s1) ==> forall k :: Last(objects, TECHNIQUE, k).Some? ==> k in s1.techniques
  {
    hide Last, Grown;
    if TacticsSynced(s0, objects, s1) {
      forall k | Last(objects, TACTIC, k).Some? ensures k in s1.tactics {
        assert TacticDue(s0.tactics, objects, s1.tactics, k);
      }
    }
    if TechniquesPresent(s0, objects, s1) {
      forall k | Last(objects, TECHNIQUE, k).Some? ensures k in s1.techniques {
        assert TechniquePresent(s0.techniques, objects, s1.techniques, k);
      }
    }
  }

  /** What one technique's row becomes. */
  ghost predicate TechniqueSynced(s0: Store, objects: seq<StixObject>, now: int, s1: Store, id: string)
    requires TacticsSynced(s0, objects, s1) && TechniquesPresent(s0, objects, s1)
  {
    SyncedKeys(s0, objects, s1);
    var o := Last(objects, TECHNIQUE, id);
    id in s1.techniques ==>
      s1.techniques[id] ==
      if o.Some? then
        WrittenTechnique(o.value, s1.techniques[id].id,
                         SyncedParent(objects, s1.techniques, id, o.value.isSub, ParentBefore(s0.techniques, id)),
                         now, PhaseTactics(objects, s1.tactics, o.value))
      else
        assert TechniquePresent(s0.techniques, objects, s1.techniques, id);
        s0.techniques[id]
  }

  /** What a sync of a bundle may turn a store into: every row is that of the last usable object with its id. */
  ghost predicate Synced(s0: Store, objects: seq<StixObject>, now: int, s1: Store) {
    && TacticsSynced(s0, objects, s1)
    && TechniquesPresent(s0, objects, s1)
    && (forall id :: TechniqueSynced(s0, objects, now, s1, id))
  }
}
