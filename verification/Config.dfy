/**
 Layering of partial configurations over defaults.

 A configuration is an arbitrary JSON tree; a dictionary is a finite map, so the
 order of its keys is not represented.
 */
module Config {
  import opened Prelude
  import Text

  datatype Json =
    | Null
    | Bool(b: bool)
    | Number(n: real)
    | String(s: string)
    | Array(items: seq<Json>)
    | Object(fields: map<string, Json>)

  type Dict = j: Json | j.Object? witness Object(map[])

  /** Recursive merge, so a partial patch cannot drop sibling keys. */
  function DeepMerge(base: Dict, patch: Dict): Dict
    decreases patch, 1
  {
    Object(map k | k in base.fields.Keys + patch.fields.Keys :: Layer(base, patch, k))
  }

  /** The value of one key after merging. */
  function Layer(base: Dict, patch: Dict, k: string): Json
    requires k in base.fields || k in patch.fields
    decreases patch, 0
  {
    if k !in patch.fields then base.fields[k]
    else if k in base.fields && base.fields[k].Object? && patch.fields[k].Object? then
      DeepMerge(base.fields[k], patch.fields[k])
    else patch.fields[k]
  }

  /** The loop that performs the merge, one patch key at a time. */
  method Merge(base: Dict, patch: Dict) returns (merged: Dict)
    ensures merged == DeepMerge(base, patch)
    decreases patch
  {
    var fields, keys := base.fields, patch.fields.Keys;
    while keys != {}
      invariant keys <= patch.fields.Keys
      invariant fields.Keys == base.fields.Keys + (patch.fields.Keys - keys)
      invariant forall k :: k in fields ==> fields[k] == if k in keys then base.fields[k] else Layer(base, patch, k)
      decreases keys
    {
      var key := PickOne(keys);
      var value := patch.fields[key];
      if key in fields && fields[key].Object? && value.Object? {
        var inner := Merge(fields[key], value);
        fields := fields[key := inner];
      } else {
        fields := fields[key := value];
      }
      keys := keys - {key};
    }
    merged := Object(fields);
    assert merged.fields == DeepMerge(base, patch).fields;
  }

  // ------------------------------------------------------------------------
  // Reading a merged configuration
  // ------------------------------------------------------------------------

  function Read(j: Json, path: seq<string>): Option<Json> {
    if path == [] then Some(j)
    else if j.Object? && path[0] in j.fields then Read(j.fields[path[0]], path[1..])
    else None
  }

  predicate IsDict(r: Option<Json>) {
    r.Some? && r.value.Object?
  }

  /** Here the patch holds a value, and not both sides hold objects. */
  predicate Overrides(base: Json, patch: Json, prefix: seq<string>) {
    Read(patch, prefix).Some? && !(IsDict(Read(base, prefix)) && IsDict(Read(patch, prefix)))
  }

  /** Somewhere along the path the patch overrides the base. */
  ghost predicate Decides(base: Json, patch: Json, path: seq<string>) {
    exists n :: 0 < n <= |path| && Overrides(base, patch, path[..n])
  }

  predicate BothDicts(base: Dict, patch: Dict, k: string) {
    k in base.fields && k in patch.fields && base.fields[k].Object? && patch.fields[k].Object?
  }

  lemma DecidesRest(base: Dict, patch: Dict, path: seq<string>)
    requires path != [] && BothDicts(base, patch, path[0])
    ensures Decides(base, patch, path) <==> Decides(base.fields[path[0]], patch.fields[path[0]], path[1..])
  {
    var b, p := base.fields[path[0]], patch.fields[path[0]];
    forall n | 0 < n <= |path| ensures Overrides(base, patch, path[..n]) == Overrides(b, p, path[1..][..n - 1]) {
      assert path[..n][1..] == path[1..][..n - 1];
    }
    assert !Overrides(b, p, path[1..][..0]);
    if n :| 0 < n <= |path| && Overrides(base, patch, path[..n]) {
      assert Overrides(b, p, path[1..][..n - 1]);
    }
    if n :| 0 < n <= |path[1..]| && Overrides(b, p, path[1..][..n]) {
      assert Overrides(base, patch, path[..n + 1]);
    }
  }

  lemma DecidedAtOnce(base: Dict, patch: Dict, path: seq<string>)
    requires path != [] && !BothDicts(base, patch, path[0])
    ensures Decides(base, patch, path) <==> path[0] in patch.fields
  {
    if path[0] in patch.fields {
      assert path[..1] == [path[0]];
      assert Overrides(base, patch, path[..1]);
    } else {
      forall n | 0 < n <= |path| ensures !Overrides(base, patch, path[..n]) {
        assert path[..n][0] == path[0];
      }
    }
  }

  /**
   Reading any path of a merge gives the patch's value where the patch decides it,
   the merge of both where both hold objects all the way, and the base's value
   where the patch is silent.
   */
  lemma {:induction false} ReadMerged(base: Dict, patch: Dict, path: seq<string>)
    ensures Read(DeepMerge(base, patch), path) ==
            if Decides(base, patch, path) then Read(patch, path)
            else if Read(patch, path).None? then Read(base, path)
            else if IsDict(Read(base, path)) && IsDict(Read(patch, path)) then
              Some(DeepMerge(Read(base, path).value, Read(patch, path).value))
            else None
    ensures !Decides(base, patch, path) && Read(patch, path).Some? ==>
            IsDict(Read(base, path)) && IsDict(Read(patch, path))
    decreases |path|
  {
    if path != [] {
      var k := path[0];
      if BothDicts(base, patch, k) {
        DecidesRest(base, patch, path);
        ReadMerged(base.fields[k], patch.fields[k], path[1..]);
      } else {
        DecidedAtOnce(base, patch, path);
      }
    }
  }

  // ------------------------------------------------------------------------
  // Laws of merging
  // ------------------------------------------------------------------------

  const NOTHING: Dict := Object(map[])

  lemma MergeIdentity(d: Dict)
    ensures DeepMerge(d, NOTHING) == d && DeepMerge(NOTHING, d) == d
  {
    assert DeepMerge(d, NOTHING).fields == d.fields;
    assert DeepMerge(NOTHING, d).fields == d.fields;
  }

  /** Two dictionaries say the same about a key. */
  predicate AgreeAt(a: Dict, b: Dict, k: string) {
    if k in a.fields then k in b.fields && a.fields[k] == b.fields[k] else k !in b.fields
  }

  /** They say the same about every key outside `exempt`. */
  ghost predicate AgreeBut(a: Dict, b: Dict, exempt: set<string>) {
    forall k :: k !in exempt ==> AgreeAt(a, b, k)
  }

  lemma AgreeEverywhere(a: Dict, b: Dict)
    ensures AgreeBut(a, b, {}) <==> a == b
  {
    if AgreeBut(a, b, {}) {
      forall k ensures k in a.fields <==> k in b.fields {
        assert AgreeAt(a, b, k);
      }
      forall k | k in a.fields ensures a.fields[k] == b.fields[k] {
        assert AgreeAt(a, b, k);
      }
      assert a.fields == b.fields;
    }
  }

  /** What the base holds at a key is also held, and so decided, by the patch. */
  ghost predicate CoversAt(base: Dict, patch: Dict, k: string)
    decreases patch, 0
  {
    k in base.fields ==> k in patch.fields && (BothDicts(base, patch, k) ==> Covers(base.fields[k], patch.fields[k]))
  }

  ghost predicate CoversBut(base: Dict, patch: Dict, exempt: set<string>)
    decreases patch, 1
  {
    forall k :: k !in exempt ==> CoversAt(base, patch, k)
  }

  /** Everything the base holds is also held by the patch. */
  ghost predicate Covers(base: Dict, patch: Dict)
    decreases patch, 2
  {
    CoversBut(base, patch, {})
  }

  lemma {:induction false} CoversKey(base: Dict, patch: Dict, k: string)
    ensures AgreeAt(DeepMerge(base, patch), patch, k) <==> CoversAt(base, patch, k)
    decreases patch, 0
  {
    if BothDicts(base, patch, k) {
      CoveredIffUnchanged(base.fields[k], patch.fields[k]);
    }
  }

  /** Outside some keys a merge changes nothing exactly when the patch covers the base there. */
  lemma {:induction false} CoveredBut(base: Dict, patch: Dict, exempt: set<string>)
    ensures AgreeBut(DeepMerge(base, patch), patch, exempt) <==> CoversBut(base, patch, exempt)
    decreases patch, 1
  {
    forall k ensures AgreeAt(DeepMerge(base, patch), patch, k) <==> CoversAt(base, patch, k) {
      CoversKey(base, patch, k);
    }
  }

  /** A merge changes nothing exactly when the patch covers the base. */
  lemma {:induction false} CoveredIffUnchanged(base: Dict, patch: Dict)
    ensures DeepMerge(base, patch) == patch <==> Covers(base, patch)
    decreases patch, 2
  {
    CoveredBut(base, patch, {});
    AgreeEverywhere(DeepMerge(base, patch), patch);
  }

  /** What a patch holds at a key is already in the base. */
  ghost predicate RedundantAt(base: Dict, patch: Dict, k: string)
    decreases patch, 0
  {
    k in patch.fields ==>
      && k in base.fields
      && if BothDicts(base, patch, k) then Redundant(base.fields[k], patch.fields[k])
        else patch.fields[k] == base.fields[k]
  }

  ghost predicate RedundantBut(base: Dict, patch: Dict, exempt: set<string>)
    decreases patch, 1
  {
    forall k :: k !in exempt ==> RedundantAt(base, patch, k)
  }

  ghost predicate Redundant(base: Dict, patch: Dict)
    decreases patch, 2
  {
    RedundantBut(base, patch, {})
  }

  lemma {:induction false} RedundantKey(base: Dict, patch: Dict, k: string)
    ensures AgreeAt(base, DeepMerge(base, patch), k) <==> RedundantAt(base, patch, k)
    decreases patch, 0
  {
    if BothDicts(base, patch, k) {
      RedundantIffBase(base.fields[k], patch.fields[k]);
    }
  }

  lemma {:induction false} BaseKeptBut(base: Dict, patch: Dict, exempt: set<string>)
    ensures AgreeBut(base, DeepMerge(base, patch), exempt) <==> RedundantBut(base, patch, exempt)
    decreases patch, 1
  {
    forall k ensures AgreeAt(base, DeepMerge(base, patch), k) <==> RedundantAt(base, patch, k) {
      RedundantKey(base, patch, k);
    }
  }

  /** A patch adds nothing exactly when all it holds is already there. */
  lemma {:induction false} RedundantIffBase(base: Dict, patch: Dict)
    ensures base == DeepMerge(base, patch) <==> Redundant(base, patch)
    decreases patch, 2
  {
    BaseKeptBut(base, patch, {});
    AgreeEverywhere(base, DeepMerge(base, patch));
  }

  /** Applying the same patch again changes nothing. */
  lemma {:induction false} MergeIdempotent(base: Dict, patch: Dict)
    ensures DeepMerge(DeepMerge(base, patch), patch) == DeepMerge(base, patch)
    decreases patch
  {
    var m := DeepMerge(base, patch);
    forall k | BothDicts(base, patch, k)
      ensures DeepMerge(DeepMerge(base.fields[k], patch.fields[k]), patch.fields[k])
              == DeepMerge(base.fields[k], patch.fields[k])
    {
      MergeIdempotent(base.fields[k], patch.fields[k]);
    }
    forall k | k in patch.fields && patch.fields[k].Object? && !BothDicts(base, patch, k)
      ensures DeepMerge(patch.fields[k], patch.fields[k]) == patch.fields[k]
    {
      SelfCovers(patch.fields[k]);
      CoveredIffUnchanged(patch.fields[k], patch.fields[k]);
    }
    forall k | k in m.fields ensures Layer(m, patch, k) == m.fields[k] {
      assert m.fields[k] == Layer(base, patch, k);
    }
    assert DeepMerge(m, patch).fields == m.fields;
  }

  lemma {:induction false} SelfCovers(d: Dict)
    ensures Covers(d, d)
    decreases d
  {
    forall k ensures CoversAt(d, d, k) {
      if BothDicts(d, d, k) { SelfCovers(d.fields[k]); }
    }
  }

  /**
   At one key where both the bottom and the top hold objects: if the middle layer
   put something else there, the top must cover what the bottom holds.
   */
  ghost predicate RegroupsAt(bottom: Dict, middle: Dict, top: Dict, k: string)
    decreases top, 0
  {
    BothDicts(bottom, top, k) && k in middle.fields ==>
      if middle.fields[k].Object? then Regroups(bottom.fields[k], middle.fields[k], top.fields[k])
      else Covers(bottom.fields[k], top.fields[k])
  }

  ghost predicate RegroupsBut(bottom: Dict, middle: Dict, top: Dict, exempt: set<string>)
    decreases top, 1
  {
    forall k :: k !in exempt ==> RegroupsAt(bottom, middle, top, k)
  }

  ghost predicate Regroups(bottom: Dict, middle: Dict, top: Dict)
    decreases top, 2
  {
    RegroupsBut(bottom, middle, top, {})
  }

  lemma {:induction false} RegroupKey(bottom: Dict, middle: Dict, top: Dict, k: string)
    ensures AgreeAt(DeepMerge(bottom, DeepMerge(middle, top)), DeepMerge(DeepMerge(bottom, middle), top), k)
            <==> RegroupsAt(bottom, middle, top, k)
    decreases top, 0
  {
    if BothDicts(bottom, top, k) {
      CoveredIffUnchanged(bottom.fields[k], top.fields[k]);
      if k in middle.fields && middle.fields[k].Object? {
        MergeRegroups(bottom.fields[k], middle.fields[k], top.fields[k]);
      }
    }
  }

  lemma {:induction false} RegroupedBut(bottom: Dict, middle: Dict, top: Dict, exempt: set<string>)
    ensures AgreeBut(DeepMerge(bottom, DeepMerge(middle, top)), DeepMerge(DeepMerge(bottom, middle), top), exempt)
            <==> RegroupsBut(bottom, middle, top, exempt)
    decreases top, 1
  {
    forall k ensures AgreeAt(DeepMerge(bottom, DeepMerge(middle, top)), DeepMerge(DeepMerge(bottom, middle), top), k)
                     <==> RegroupsAt(bottom, middle, top, k)
    {
      RegroupKey(bottom, middle, top, k);
    }
  }

  /** Merging regroups exactly under that condition. */
  lemma {:induction false} MergeRegroups(bottom: Dict, middle: Dict, top: Dict)
    ensures DeepMerge(bottom, DeepMerge(middle, top)) == DeepMerge(DeepMerge(bottom, middle), top)
            <==> Regroups(bottom, middle, top)
    decreases top, 2
  {
    RegroupedBut(bottom, middle, top, {});
    AgreeEverywhere(DeepMerge(bottom, DeepMerge(middle, top)), DeepMerge(DeepMerge(bottom, middle), top));
  }

  /** In particular it does when the middle layer never replaces an object both others have. */
  ghost predicate NoReplacement(bottom: Dict, middle: Dict, top: Dict)
    decreases top
  {
    forall k :: BothDicts(bottom, top, k) && k in middle.fields ==>
      middle.fields[k].Object? && NoReplacement(bottom.fields[k], middle.fields[k], top.fields[k])
  }

  lemma {:induction false} NoReplacementRegroups(bottom: Dict, middle: Dict, top: Dict)
    requires NoReplacement(bottom, middle, top)
    ensures Regroups(bottom, middle, top)
    decreases top
  {
    forall k ensures RegroupsAt(bottom, middle, top, k) {
      if BothDicts(bottom, top, k) && k in middle.fields {
        NoReplacementRegroups(bottom.fields[k], middle.fields[k], top.fields[k]);
      }
    }
  }

  /** The dictionary under a key, empty when there is none. */
  function DictAt(d: Dict, k: string): Dict {
    if k in d.fields && d.fields[k].Object? then d.fields[k] else NOTHING
  }

  /**
   At one key, leaving the middle layer out goes unnoticed: where the top is silent
   the middle only repeats the bottom, and where the top holds an object it hides
   whatever the middle put there or took away.
   */
  ghost predicate HiddenAt(bottom: Dict, middle: Dict, top: Dict, k: string)
    decreases top, 0
  {
    k in middle.fields ==>
      if k !in top.fields then RedundantAt(bottom, middle, k)
      else top.fields[k].Object? ==>
        if middle.fields[k].Object? then Hidden(DictAt(bottom, k), middle.fields[k], top.fields[k])
        else Covers(DictAt(bottom, k), top.fields[k])
  }

  ghost predicate HiddenBut(bottom: Dict, middle: Dict, top: Dict, exempt: set<string>)
    decreases top, 1
  {
    forall k :: k !in exempt ==> HiddenAt(bottom, middle, top, k)
  }

  ghost predicate Hidden(bottom: Dict, middle: Dict, top: Dict)
    decreases top, 2
  {
    HiddenBut(bottom, middle, top, {})
  }

  lemma {:induction false} HiddenKey(bottom: Dict, middle: Dict, top: Dict, k: string)
    ensures AgreeAt(DeepMerge(bottom, top), DeepMerge(DeepMerge(bottom, middle), top), k)
            <==> HiddenAt(bottom, middle, top, k)
    decreases top, 0
  {
    if k in middle.fields {
      if k !in top.fields {
        RedundantKey(bottom, middle, k);
      } else if top.fields[k].Object? {
        MergeIdentity(top.fields[k]);
        if middle.fields[k].Object? {
          MergeIdentity(middle.fields[k]);
          HiddenIffDropped(DictAt(bottom, k), middle.fields[k], top.fields[k]);
        } else {
          CoveredIffUnchanged(DictAt(bottom, k), top.fields[k]);
        }
      }
    }
  }

  lemma {:induction false} DroppedBut(bottom: Dict, middle: Dict, top: Dict, exempt: set<string>)
    ensures AgreeBut(DeepMerge(bottom, top), DeepMerge(DeepMerge(bottom, middle), top), exempt)
            <==> HiddenBut(bottom, middle, top, exempt)
    decreases top, 1
  {
    forall k ensures AgreeAt(DeepMerge(bottom, top), DeepMerge(DeepMerge(bottom, middle), top), k)
                     <==> HiddenAt(bottom, middle, top, k)
    {
      HiddenKey(bottom, middle, top, k);
    }
  }

  /** A middle layer can be left out exactly when the top hides it. */
  lemma {:induction false} HiddenIffDropped(bottom: Dict, middle: Dict, top: Dict)
    ensures DeepMerge(bottom, top) == DeepMerge(DeepMerge(bottom, middle), top) <==> Hidden(bottom, middle, top)
    decreases top, 2
  {
    DroppedBut(bottom, middle, top, {});
    AgreeEverywhere(DeepMerge(bottom, top), DeepMerge(DeepMerge(bottom, middle), top));
  }

  // ------------------------------------------------------------------------
  // The stored configuration
  // ------------------------------------------------------------------------

  const KEY := "key"
  const CONFIG_KEY := "default"
  const CONNECTION := "connection"
  const TOKEN := "token"
  const CONNECTED_AT := "connected_at"

  /** Top-level names the record store keeps in its envelope and drops from payloads. */
  const RESERVED := {"id", "collection", "room_id", "revision", "created_at", "updated_at", "deleted_at"}

  /** Reading a setting inside a value that is neither empty nor a dictionary. */
  datatype ConfigError = NotAMapping

  /** Whether a value counts as true. */
  predicate Truthy(j: Json) {
    match j
    case Null => false
    case Bool(b) => b
    case Number(n) => n != 0.0
    case String(s) => s != ""
    case Array(items) => items != []
    case Object(fields) => fields != map[]
  }

  predicate HasText(j: Json) {
    j.Number? || (j.String? && Text.Strip(j.s) != "")
  }

  /** Metrics require a connection token. */
  function IsConnected(config: Dict): Result<bool, ConfigError> {
    if CONNECTION !in config.fields || !Truthy(config.fields[CONNECTION]) then Ok(false)
    else
      var connection := config.fields[CONNECTION];
      if !connection.Object? then Err(NotAMapping)
      else Ok(TOKEN in connection.fields && HasText(connection.fields[TOKEN]))
  }

  function OrNothing(d: Option<Dict>): Dict {
    if d.Some? then d.value else NOTHING
  }

  /** The override record: the one with the fixed id, else one found by its key field. */
  function Stored(byId: Option<Dict>, byKey: Option<Dict>): Dict {
    OrNothing(if byId.Some? then byId else byKey)
  }

  function Load(defaults: Dict, byId: Option<Dict>, byKey: Option<Dict>): Dict {
    DeepMerge(defaults, Stored(byId, byKey))
  }

  function WithField(d: Dict, k: string, j: Json): Dict {
    Object(d.fields[k := j])
  }

  /** Record when the connection was first made, unless it already says. */
  function Stamp(merged: Dict, now: string): Dict
    requires CONNECTION in merged.fields && merged.fields[CONNECTION].Object?
  {
    var connection: Dict := merged.fields[CONNECTION];
    if CONNECTED_AT in connection.fields && Truthy(connection.fields[CONNECTED_AT]) then merged
    else WithField(merged, CONNECTION, WithField(connection, CONNECTED_AT, String(now)))
  }

  function Envelope(d: Dict): Dict {
    Object(d.fields - RESERVED)
  }

  class ConfigStore {
    const defaults: Dict
    /** The record under the configuration's own id. */
    var byId: Option<Dict>
    /** The first other record whose key field names the configuration. */
    var byKey: Option<Dict>

    constructor (defaults: Dict)
      ensures this.defaults == defaults && byId == byKey == None
    {
      this.defaults := defaults;
      byId, byKey := None, None;
    }

    method LoadConfig() returns (config: Dict)
      ensures config == Load(defaults, byId, byKey)
    {
      var stored := NOTHING;
      if byId.Some? {
        stored := byId.value;
      } else if byKey.Some? {
        stored := byKey.value;
      }
      config := Merge(defaults, stored);
    }

    /** Merge a partial patch and write it back whole; a failing read writes nothing. */
    method SaveConfig(patch: Dict, now: string) returns (saved: Result<Dict, ConfigError>)
      modifies this
      ensures saved == Save(defaults, old(byId), old(byKey), patch, now)
      ensures byId == if saved.Ok? then Some(saved.value) else old(byId)
      ensures byKey == old(byKey)
    {
      var merged := Merge(OrNothing(byId), patch);
      merged := WithField(merged, KEY, String(CONFIG_KEY));
      var nowConnected := IsConnected(merged);
      if nowConnected.Err? { return Err(nowConnected.error); }
      if nowConnected.value {
        var config := LoadConfig();
        var wasConnected := IsConnected(config);
        if wasConnected.Err? { return Err(wasConnected.error); }
        if !wasConnected.value {
          merged := Stamp(merged, now);
        }
      }
      byId := Some(Envelope(merged));
      saved := Ok(byId.value);
    }
  }

  /** What a save stores. */
  function Save(defaults: Dict, byId: Option<Dict>, byKey: Option<Dict>, patch: Dict, now: string)
    : Result<Dict, ConfigError>
  {
    var merged := WithField(DeepMerge(OrNothing(byId), patch), KEY, String(CONFIG_KEY));
    var nowConnected := IsConnected(merged);
    if nowConnected.Err? then Err(nowConnected.error)
    else if !nowConnected.value then Ok(Envelope(merged))
    else
      var wasConnected := IsConnected(Load(defaults, byId, byKey));
      if wasConnected.Err? then Err(wasConnected.error)
      else Ok(Envelope(if wasConnected.value then merged else Stamp(merged, now)))
  }

  /** The settings a save leaves to the patch: all but its own key, its connection stamp and the envelope's names. */
  predicate TeamOwned(path: seq<string>) {
    && path != [] && path[0] != KEY && path[0] !in RESERVED
    && (path[0] == CONNECTION ==> |path| > 1 && path[1] != CONNECTED_AT)
  }

  lemma SavedReads(defaults: Dict, byId: Option<Dict>, byKey: Option<Dict>, patch: Dict, now: string, path: seq<string>)
    requires Save(defaults, byId, byKey, patch, now).Ok? && TeamOwned(path)
    ensures Read(DeepMerge(defaults, Save(defaults, byId, byKey, patch, now).value), path)
            == Read(DeepMerge(defaults, DeepMerge(OrNothing(byId), patch)), path)
  {
    var saved: Dict := Save(defaults, byId, byKey, patch, now).value;
    var merged := DeepMerge(OrNothing(byId), patch);
    var k := path[0];
    assert k in saved.fields <==> k in merged.fields;
    if k != CONNECTION || k !in merged.fields || !merged.fields[k].Object? {
      assert k in merged.fields ==> saved.fields[k] == merged.fields[k];
    } else {
      var before: Dict, after: Dict := merged.fields[k], saved.fields[k];
      assert path[1] in before.fields <==> path[1] in after.fields;
      assert path[1] in before.fields ==> after.fields[path[1]] == before.fields[path[1]];
      if k in defaults.fields && defaults.fields[k].Object? {
        SameKeyReads(defaults.fields[k], before, after, path[1..]);
      }
    }
  }

  lemma SameKeyReads(base: Dict, a: Dict, b: Dict, path: seq<string>)
    requires path != [] && (path[0] in a.fields <==> path[0] in b.fields)
    requires path[0] in a.fields ==> a.fields[path[0]] == b.fields[path[0]]
    ensures Read(DeepMerge(base, a), path) == Read(DeepMerge(base, b), path)
  {
  }

  // ------------------------------------------------------------------------
  // Loading after a save
  // ------------------------------------------------------------------------

  /** Two configurations read alike wherever a save leaves the settings to the patch. */
  ghost predicate OwnedAlike(a: Dict, b: Dict) {
    forall path :: TeamOwned(path) ==> Read(a, path) == Read(b, path)
  }

  /** The top-level names a save sees to itself, wholly or, for the connection, in part. */
  const NOT_PLAIN := RESERVED + {KEY, CONNECTION}

  lemma ReadKey(d: Dict, k: string)
    ensures Read(d, [k]) == if k in d.fields then Some(d.fields[k]) else None
  {
    if k in d.fields {
      assert [k][1..] == [];
    }
  }

  lemma ReadConnection(d: Dict, path: seq<string>)
    requires |path| > 1 && path[0] == CONNECTION
    ensures Read(d, path) == Read(DictAt(d, CONNECTION), path[1..])
  {
  }

  lemma AgreeReads(a: Dict, b: Dict, path: seq<string>)
    requires path != [] && AgreeAt(a, b, path[0])
    ensures Read(a, path) == Read(b, path)
  {
  }

  lemma AlikeAgree(a: Dict, b: Dict)
    requires OwnedAlike(a, b)
    ensures AgreeBut(a, b, NOT_PLAIN)
    ensures AgreeBut(DictAt(a, CONNECTION), DictAt(b, CONNECTION), {CONNECTED_AT})
  {
    forall k | k !in NOT_PLAIN ensures AgreeAt(a, b, k) {
      ReadKey(a, k);
      ReadKey(b, k);
      assert TeamOwned([k]);
    }
    forall x | x !in {CONNECTED_AT} ensures AgreeAt(DictAt(a, CONNECTION), DictAt(b, CONNECTION), x) {
      var path := [CONNECTION, x];
      assert path[1..] == [x] && TeamOwned(path);
      ReadConnection(a, path);
      ReadConnection(b, path);
      ReadKey(DictAt(a, CONNECTION), x);
      ReadKey(DictAt(b, CONNECTION), x);
    }
  }

  lemma AlikeIffAgree(a: Dict, b: Dict)
    ensures OwnedAlike(a, b) <==>
            && AgreeBut(a, b, NOT_PLAIN)
            && AgreeBut(DictAt(a, CONNECTION), DictAt(b, CONNECTION), {CONNECTED_AT})
  {
    if OwnedAlike(a, b) {
      AlikeAgree(a, b);
    }
    if AgreeBut(a, b, NOT_PLAIN) && AgreeBut(DictAt(a, CONNECTION), DictAt(b, CONNECTION), {CONNECTED_AT}) {
      forall path | TeamOwned(path) ensures Read(a, path) == Read(b, path) {
        if path[0] == CONNECTION {
          ReadConnection(a, path);
          ReadConnection(b, path);
          AgreeReads(DictAt(a, CONNECTION), DictAt(b, CONNECTION), path[1..]);
        } else {
          AgreeReads(a, b, path);
        }
      }
    }
  }

  /** The layers of the plain settings regroup, and so do those of the connection but for its stamp. */
  ghost predicate OwnedRegroup(defaults: Dict, stored: Dict, patch: Dict) {
    && RegroupsBut(defaults, stored, patch, NOT_PLAIN)
    && (BothDicts(defaults, patch, CONNECTION) && CONNECTION in stored.fields ==>
          var d: Dict, p: Dict := defaults.fields[CONNECTION], patch.fields[CONNECTION];
          if stored.fields[CONNECTION].Object? then RegroupsBut(d, stored.fields[CONNECTION], p, {CONNECTED_AT})
          else CoversBut(d, p, {CONNECTED_AT}))
  }

  lemma ConnectionRegroups(defaults: Dict, stored: Dict, patch: Dict)
    requires RegroupsBut(defaults, stored, patch, NOT_PLAIN)
    ensures AgreeBut(DictAt(DeepMerge(defaults, DeepMerge(stored, patch)), CONNECTION),
                     DictAt(DeepMerge(DeepMerge(defaults, stored), patch), CONNECTION), {CONNECTED_AT})
            <==> OwnedRegroup(defaults, stored, patch)
  {
    if BothDicts(defaults, patch, CONNECTION) && CONNECTION in stored.fields {
      var d: Dict, p: Dict := defaults.fields[CONNECTION], patch.fields[CONNECTION];
      if stored.fields[CONNECTION].Object? {
        RegroupedBut(d, stored.fields[CONNECTION], p, {CONNECTED_AT});
      } else {
        CoveredBut(d, p, {CONNECTED_AT});
      }
    }
  }

  lemma OwnedRegroups(defaults: Dict, stored: Dict, patch: Dict)
    ensures OwnedAlike(DeepMerge(defaults, DeepMerge(stored, patch)), DeepMerge(DeepMerge(defaults, stored), patch))
            <==> OwnedRegroup(defaults, stored, patch)
  {
    AlikeIffAgree(DeepMerge(defaults, DeepMerge(stored, patch)), DeepMerge(DeepMerge(defaults, stored), patch));
    RegroupedBut(defaults, stored, patch, NOT_PLAIN);
    if RegroupsBut(defaults, stored, patch, NOT_PLAIN) {
      ConnectionRegroups(defaults, stored, patch);
    }
  }

  /**
   What is stored over a connection section `d` goes unnoticed under a patch, its
   stamp apart: the patch replaces or hides it, or is silent and it changed nothing.
   */
  ghost predicate ConnectionHidden(d: Dict, stored: Json, patch: Dict) {
    if CONNECTION !in patch.fields then
      if stored.Object? then RedundantBut(d, stored, {CONNECTED_AT}) else AgreeBut(d, NOTHING, {CONNECTED_AT})
    else patch.fields[CONNECTION].Object? ==>
      if stored.Object? then HiddenBut(d, stored, patch.fields[CONNECTION], {CONNECTED_AT})
      else CoversBut(d, patch.fields[CONNECTION], {CONNECTED_AT})
  }

  /** The patch hides all that is stored over the plain defaults and over the connection. */
  ghost predicate OwnedHidden(defaults: Dict, stored: Dict, patch: Dict) {
    && HiddenBut(defaults, stored, patch, NOT_PLAIN)
    && (CONNECTION in stored.fields ==>
        ConnectionHidden(DictAt(defaults, CONNECTION), stored.fields[CONNECTION], patch))
  }

  lemma DictAtMerged(base: Dict, patch: Dict, k: string)
    ensures DictAt(DeepMerge(base, patch), k) ==
            if k !in patch.fields then DictAt(base, k)
            else if patch.fields[k].Object? then DeepMerge(DictAt(base, k), patch.fields[k])
            else NOTHING
  {
    if k in patch.fields && patch.fields[k].Object? {
      MergeIdentity(patch.fields[k]);
    }
  }

  lemma ConnectionDropped(defaults: Dict, stored: Dict, patch: Dict)
    requires CONNECTION in stored.fields
    ensures AgreeBut(DictAt(DeepMerge(defaults, patch), CONNECTION),
                     DictAt(DeepMerge(DeepMerge(defaults, stored), patch), CONNECTION), {CONNECTED_AT})
            <==> ConnectionHidden(DictAt(defaults, CONNECTION), stored.fields[CONNECTION], patch)
  {
    var d, s := DictAt(defaults, CONNECTION), stored.fields[CONNECTION];
    DictAtMerged(defaults, patch, CONNECTION);
    DictAtMerged(defaults, stored, CONNECTION);
    DictAtMerged(DeepMerge(defaults, stored), patch, CONNECTION);
    if CONNECTION !in patch.fields {
      if s.Object? { BaseKeptBut(d, s, {CONNECTED_AT}); }
    } else if patch.fields[CONNECTION].Object? {
      var p: Dict := patch.fields[CONNECTION];
      if s.Object? {
        DroppedBut(d, s, p, {CONNECTED_AT});
      } else {
        MergeIdentity(p);
        CoveredBut(d, p, {CONNECTED_AT});
      }
    }
  }

  lemma OwnedDropped(defaults: Dict, stored: Dict, patch: Dict)
    ensures OwnedAlike(DeepMerge(defaults, patch), DeepMerge(DeepMerge(defaults, stored), patch))
            <==> OwnedHidden(defaults, stored, patch)
  {
    AlikeIffAgree(DeepMerge(defaults, patch), DeepMerge(DeepMerge(defaults, stored), patch));
    DroppedBut(defaults, stored, patch, NOT_PLAIN);
    if CONNECTION in stored.fields {
      ConnectionDropped(defaults, stored, patch);
    } else {
      DictAtMerged(defaults, patch, CONNECTION);
      DictAtMerged(defaults, stored, CONNECTION);
      DictAtMerged(DeepMerge(defaults, stored), patch, CONNECTION);
    }
  }

  /** What loading gives once `patch` has been saved. */
  function Reloaded(defaults: Dict, byId: Option<Dict>, byKey: Option<Dict>, patch: Dict, now: string): Dict
    requires Save(defaults, byId, byKey, patch, now).Ok?
  {
    Load(defaults, Some(Save(defaults, byId, byKey, patch, now).value), byKey)
  }

  lemma SavedAlike(defaults: Dict, byId: Option<Dict>, byKey: Option<Dict>, patch: Dict, now: string)
    requires Save(defaults, byId, byKey, patch, now).Ok?
    ensures OwnedAlike(Reloaded(defaults, byId, byKey, patch, now),
                       DeepMerge(defaults, DeepMerge(OrNothing(byId), patch)))
  {
    forall path | TeamOwned(path)
      ensures Read(Reloaded(defaults, byId, byKey, patch, now), path)
              == Read(DeepMerge(defaults, DeepMerge(OrNothing(byId), patch)), path)
    {
      SavedReads(defaults, byId, byKey, patch, now, path);
    }
  }

  lemma AlikeTransfers(a: Dict, b: Dict, c: Dict)
    requires OwnedAlike(a, b)
    ensures OwnedAlike(a, c) <==> OwnedAlike(b, c)
  {
  }

  /**
   Loading after a save reads as patching what was loaded before, on every path the
   save leaves to the patch, exactly when the layers regroup, if the overrides were
   found under their own id; if they were found by their key only, they are not
   carried over, and it does exactly when the patch hides them all.
   */
  lemma LoadAfterSave(defaults: Dict, byId: Option<Dict>, byKey: Option<Dict>, patch: Dict, now: string)
    requires Save(defaults, byId, byKey, patch, now).Ok?
    ensures (forall path :: TeamOwned(path) ==>
               Read(Reloaded(defaults, byId, byKey, patch, now), path)
                 == Read(DeepMerge(Load(defaults, byId, byKey), patch), path))
            <==> if byId.Some? then OwnedRegroup(defaults, byId.value, patch)
              else OwnedHidden(defaults, OrNothing(byKey), patch)
  {
    var after, patched := Reloaded(defaults, byId, byKey, patch, now), DeepMerge(Load(defaults, byId, byKey), patch);
    SavedAlike(defaults, byId, byKey, patch, now);
    AlikeTransfers(after, DeepMerge(defaults, DeepMerge(OrNothing(byId), patch)), patched);
    if byId.Some? {
      OwnedRegroups(defaults, byId.value, patch);
    } else {
      MergeIdentity(patch);
      OwnedDropped(defaults, OrNothing(byKey), patch);
    }
    assert OwnedAlike(after, patched) <==> forall path :: TeamOwned(path) ==> Read(after, path) == Read(patched, path);
  }

  /** With no overrides at all it always does. */
  lemma FirstSaveReads(defaults: Dict, patch: Dict, now: string, path: seq<string>)
    requires Save(defaults, None, None, patch, now).Ok? && TeamOwned(path)
    ensures Read(Reloaded(defaults, None, None, patch, now), path)
            == Read(DeepMerge(Load(defaults, None, None), patch), path)
  {
    SavedReads(defaults, None, None, patch, now, path);
    MergeIdentity(patch);
    MergeIdentity(defaults);
  }

  /**
   Saving over a record found by its key drops every setting only that record holds:
   after the save the setting is gone, and before it was there.
   */
  lemma FoundByKeyDropped(defaults: Dict, stored: Dict, patch: Dict, now: string, k: string)
    requires Save(defaults, None, Some(stored), patch, now).Ok?
    requires k !in NOT_PLAIN && k in stored.fields && k !in defaults.fields && k !in patch.fields
    ensures Read(Load(defaults, None, Some(stored)), [k]) == Some(stored.fields[k])
    ensures Read(Reloaded(defaults, None, Some(stored), patch, now), [k]) == None
    ensures !OwnedHidden(defaults, stored, patch)
  {
    assert TeamOwned([k]);
    SavedReads(defaults, None, Some(stored), patch, now, [k]);
    MergeIdentity(patch);
    assert Load(defaults, None, Some(stored)) == DeepMerge(defaults, stored);
    assert DeepMerge(defaults, stored).fields[k] == Layer(defaults, stored, k);
    ReadKey(DeepMerge(defaults, stored), k);
    ReadKey(DeepMerge(defaults, patch), k);
    assert !HiddenAt(defaults, stored, patch, k);
  }

  /**
   Under an id, a team that stored something else over a section of the defaults
   loses that override as soon as it patches the section with anything that leaves
   one of the section's defaults alone.
   */
  lemma LostOverride(defaults: Dict, stored: Dict, byKey: Option<Dict>, patch: Dict, now: string, name: string)
    requires Save(defaults, Some(stored), byKey, patch, now).Ok? && name !in NOT_PLAIN
    requires BothDicts(defaults, patch, name) && name in stored.fields && !stored.fields[name].Object?
    requires !Covers(defaults.fields[name], patch.fields[name])
    ensures exists path :: TeamOwned(path)
              && Read(Reloaded(defaults, Some(stored), byKey, patch, now), path)
                 != Read(DeepMerge(Load(defaults, Some(stored), byKey), patch), path)
  {
    LoadAfterSave(defaults, Some(stored), byKey, patch, now);
    assert !RegroupsAt(defaults, stored, patch, name);
  }

  // ------------------------------------------------------------------------
  // The connection and its stamp
  // ------------------------------------------------------------------------

  /** The token the configuration holds, if its connection holds one. */
  function TokenOf(config: Dict): Option<Json> {
    Read(config, ["connection", "token"])
  }

  /** A number, or text with something other than blanks in it. */
  predicate Usable(token: Json) {
    token.Number? || (token.String? && exists i :: 0 <= i < |token.s| && !Text.IsSpace(token.s[i]))
  }

  lemma {:induction false} BlankDropped(s: string)
    ensures Text.DropLeft(s, Text.IsSpace) == "" <==> forall i :: 0 <= i < |s| ==> Text.IsSpace(s[i])
    ensures Text.DropLeft(s, Text.IsSpace) != "" ==> !Text.IsSpace(Text.DropLeft(s, Text.IsSpace)[0])
  {
    if s != "" && Text.IsSpace(s[0]) {
      BlankDropped(s[1..]);
      assert forall i :: 0 < i < |s| ==> s[i] == s[1..][i - 1];
      assert forall i :: 0 <= i < |s[1..]| ==> s[1..][i] == s[i + 1];
    }
  }

  lemma {:induction false} FrontStays(s: string)
    requires s != "" && !Text.IsSpace(s[0])
    ensures Text.DropRight(s, Text.IsSpace) != ""
  {
    if |s| > 1 && Text.IsSpace(s[|s| - 1]) {
      FrontStays(s[..|s| - 1]);
    }
  }

  lemma UsableExactly(token: Json)
    ensures HasText(token) <==> Usable(token)
  {
    if token.String? {
      BlankDropped(token.s);
      if Text.DropLeft(token.s, Text.IsSpace) != "" { FrontStays(Text.DropLeft(token.s, Text.IsSpace)); }
    }
  }

  lemma ReadTwo(d: Dict, a: string, b: string)
    ensures Read(d, [a, b]) == if a in d.fields && d.fields[a].Object? && b in d.fields[a].fields
                               then Some(d.fields[a].fields[b]) else None
  {
    var path := [a, b];
    assert path[1..] == [b] && path[1..][1..] == [];
    if a in d.fields && d.fields[a].Object? && b in d.fields[a].fields {
      assert Read(d.fields[a], path[1..]) == Some(d.fields[a].fields[b]);
    }
  }

  /** Nothing, no, zero and whatever is empty count as false; everything else as true. */
  lemma TruthyExactly(j: Json)
    ensures !Truthy(j) <==>
            j in {Null, Bool(false), Number(0.0), String(""), Array([]), Object(map[])}
  {
  }

  /**
   A configuration is connected exactly if its connection holds a usable token; asking
   fails only over a connection that is no object and not empty.
   */
  lemma ConnectedExactly(config: Dict)
    ensures IsConnected(config) == Ok(true) <==> TokenOf(config).Some? && Usable(TokenOf(config).value)
    ensures IsConnected(config).Err? <==>
            "connection" in config.fields && !config.fields["connection"].Object? && Truthy(config.fields["connection"])
  {
    ReadTwo(config, "connection", "token");
    if TokenOf(config).Some? { UsableExactly(TokenOf(config).value); }
  }

  /** A save is the one that connects: afterwards there is a usable token, and what was loaded had none. */
  predicate Connects(defaults: Dict, byId: Option<Dict>, byKey: Option<Dict>, patch: Dict) {
    var before, merged := TokenOf(Load(defaults, byId, byKey)), TokenOf(DeepMerge(OrNothing(byId), patch));
    merged.Some? && Usable(merged.value) && !(before.Some? && Usable(before.value))
  }

  /**
   The connection is stamped exactly by the save that connects, and only if the merged
   record does not say already when that was; otherwise the stamp is as merged.
   */
  lemma StampedExactly(defaults: Dict, byId: Option<Dict>, byKey: Option<Dict>, patch: Dict, now: string)
    requires Save(defaults, byId, byKey, patch, now).Ok?
    ensures var merged, path := DeepMerge(OrNothing(byId), patch), ["connection", "connected_at"];
            var saved: Dict := Save(defaults, byId, byKey, patch, now).value;
            var was := Read(merged, path);
            Read(saved, path) ==
              if Connects(defaults, byId, byKey, patch)
                && !(was.Some? && Truthy(was.value)) then Some(String(now)) else was
  {
    var merged := DeepMerge(OrNothing(byId), patch);
    var keyed := WithField(merged, KEY, String(CONFIG_KEY));
    ConnectedExactly(keyed);
    ConnectedExactly(Load(defaults, byId, byKey));
    ReadTwo(merged, "connection", "token");
    ReadTwo(keyed, "connection", "token");
    ReadTwo(merged, "connection", "connected_at");
    ReadTwo(Save(defaults, byId, byKey, patch, now).value, "connection", "connected_at");
  }

  /** A save fails exactly if one of the two connections it looks at cannot be asked, and then nothing is written. */
  lemma SaveFailsExactly(defaults: Dict, byId: Option<Dict>, byKey: Option<Dict>, patch: Dict, now: string)
    ensures var merged, loaded := DeepMerge(OrNothing(byId), patch), Load(defaults, byId, byKey);
            Save(defaults, byId, byKey, patch, now).Err? <==>
              || IsConnected(merged).Err?
              || (IsConnected(merged) == Ok(true) && IsConnected(loaded).Err?)
  {
  }

  /** The record that loading reads: the one under its own id, else the one found by its key, else none. */
  lemma LoadedFrom(defaults: Dict, byId: Option<Dict>, byKey: Option<Dict>)
    ensures byId.Some? ==> Load(defaults, byId, byKey) == DeepMerge(defaults, byId.value)
    ensures byId.None? && byKey.Some? ==> Load(defaults, byId, byKey) == DeepMerge(defaults, byKey.value)
    ensures byId.None? && byKey.None? ==> Load(defaults, byId, byKey) == defaults
  {
    MergeIdentity(defaults);
  }

  /** What a save writes says it is the default configuration, and holds nothing the record's envelope keeps. */
  lemma SavedEnvelope(defaults: Dict, byId: Option<Dict>, byKey: Option<Dict>, patch: Dict, now: string)
    requires Save(defaults, byId, byKey, patch, now).Ok?
    ensures var saved: Dict := Save(defaults, byId, byKey, patch, now).value;
            && "key" in saved.fields && saved.fields["key"] == String("default")
            && forall k :: k in {"id", "collection", "room_id", "revision", "created_at", "updated_at",
                                 "deleted_at"} ==>
                 k !in saved.fields
  {
    assert KEY !in RESERVED && KEY != CONNECTION;
  }
}
