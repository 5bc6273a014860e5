/**
 Saves of the configuration that overlap. A save works the whole record out from the
 one it read; the store then writes it key by key over whatever is stored by then.
 */
module OverlappingSaves {
  import opened Config
  import opened Prelude

  /** The store's merge of a record into the one it finds: whole values, key by key. */
  function Updated(current: Dict, saved: Dict): Dict {
    Envelope(Object(current.fields + saved.fields))
  }

  datatype Clash = AlreadyThere | Gone

  /** The write of a save that read `before` when `current` is stored: it creates or updates as what it read demands. */
  function LateSave(before: Option<Dict>, current: Option<Dict>, saved: Dict): Result<Dict, Clash> {
    if before.None? then if current.Some? then Err(AlreadyThere) else Ok(saved)
    else if current.None? then Err(Gone)
    else Ok(Updated(current.value, saved))
  }

  /** A save whose read and write come together writes what it worked out. */
  lemma UninterruptedIsSaved(defaults: Dict, before: Option<Dict>, byKey: Option<Dict>, patch: Dict, now: string)
    requires Save(defaults, before, byKey, patch, now).Ok?
    requires before.Some? ==> Envelope(before.value) == before.value
    ensures LateSave(before, before, Save(defaults, before, byKey, patch, now).value)
            == Ok(Save(defaults, before, byKey, patch, now).value)
  {
    var saved: Dict := Save(defaults, before, byKey, patch, now).value;
    if before.Some? {
      assert before.value.fields.Keys !! RESERVED by { assert before.value.fields == before.value.fields - RESERVED; }
      SavedKeys(defaults, before.value, byKey, patch, now);
      assert (before.value.fields + saved.fields) - RESERVED == saved.fields;
    }
  }

  /** What a save writes holds every key of the record it read and of the patch. */
  lemma SavedKeys(defaults: Dict, before: Dict, byKey: Option<Dict>, patch: Dict, now: string)
    requires Save(defaults, Some(before), byKey, patch, now).Ok?
    ensures Save(defaults, Some(before), byKey, patch, now).value.fields.Keys
            == before.fields.Keys + patch.fields.Keys + {KEY} - RESERVED
  {
    assert KEY !in RESERVED && CONNECTION !in RESERVED;
  }

  // ------------------------------------------------------------------------
  // When a patch does not see the difference
  // ------------------------------------------------------------------------

  /** At one key, two layers become the same under a patch: it holds a value there, or hides where they differ. */
  ghost predicate AlikeAt(b: Dict, c: Dict, patch: Dict, k: string)
    decreases patch, 0
  {
    if k in patch.fields then patch.fields[k].Object? ==> Alike(DictAt(b, k), DictAt(c, k), patch.fields[k])
    else AgreeAt(b, c, k)
  }

  ghost predicate AlikeBut(b: Dict, c: Dict, patch: Dict, exempt: set<string>)
    decreases patch, 1
  {
    forall k :: k !in exempt ==> AlikeAt(b, c, patch, k)
  }

  ghost predicate Alike(b: Dict, c: Dict, patch: Dict)
    decreases patch, 2
  {
    AlikeBut(b, c, patch, {})
  }

  lemma {:induction false} AlikeKey(b: Dict, c: Dict, patch: Dict, k: string)
    ensures AgreeAt(DeepMerge(b, patch), DeepMerge(c, patch), k) <==> AlikeAt(b, c, patch, k)
    decreases patch, 0
  {
    if k in patch.fields && patch.fields[k].Object? {
      MergeIdentity(patch.fields[k]);
      AlikeIffSame(DictAt(b, k), DictAt(c, k), patch.fields[k]);
    }
  }

  lemma {:induction false} SameBut(b: Dict, c: Dict, patch: Dict, exempt: set<string>)
    ensures AgreeBut(DeepMerge(b, patch), DeepMerge(c, patch), exempt) <==> AlikeBut(b, c, patch, exempt)
    decreases patch, 1
  {
    forall k ensures AgreeAt(DeepMerge(b, patch), DeepMerge(c, patch), k) <==> AlikeAt(b, c, patch, k) {
      AlikeKey(b, c, patch, k);
    }
  }

  /** Two layers patch to the same exactly if they differ only where the patch hides it. */
  lemma {:induction false} AlikeIffSame(b: Dict, c: Dict, patch: Dict)
    ensures DeepMerge(b, patch) == DeepMerge(c, patch) <==> Alike(b, c, patch)
    decreases patch, 2
  {
    SameBut(b, c, patch, {});
    AgreeEverywhere(DeepMerge(b, patch), DeepMerge(c, patch));
  }

  // ------------------------------------------------------------------------
  // What a late write keeps
  // ------------------------------------------------------------------------

  /** The save's own keys: those of the record it read and of the patch. */
  predicate Touches(before: Dict, patch: Dict, k: string) {
    k in before.fields || k in patch.fields
  }

  ghost predicate ConnectionAlike(before: Dict, current: Dict, patch: Dict) {
    var b, c := DictAt(before, CONNECTION), DictAt(current, CONNECTION);
    if CONNECTION !in patch.fields then AgreeBut(b, c, {CONNECTED_AT})
    else patch.fields[CONNECTION].Object? ==> AlikeBut(b, c, patch.fields[CONNECTION], {CONNECTED_AT})
  }

  /** What was saved in between differs from what this save read only where it writes nothing or its patch hides it. */
  ghost predicate Unseen(before: Dict, current: Dict, patch: Dict) {
    && (forall k :: k !in NOT_PLAIN && Touches(before, patch, k) ==> AlikeAt(before, current, patch, k))
    && (Touches(before, patch, CONNECTION) ==> ConnectionAlike(before, current, patch))
  }

  /** What a save works out, at a plain key and in the connection but for its stamp. */
  lemma SavedFields(defaults: Dict, before: Dict, byKey: Option<Dict>, patch: Dict, now: string)
    requires Save(defaults, Some(before), byKey, patch, now).Ok?
    ensures var saved: Dict, merged := Save(defaults, Some(before), byKey, patch, now).value, DeepMerge(before, patch);
            && AgreeBut(saved, merged, NOT_PLAIN)
            && (CONNECTION in saved.fields <==> Touches(before, patch, CONNECTION))
            && AgreeBut(DictAt(saved, CONNECTION), DictAt(merged, CONNECTION), {CONNECTED_AT})
  {
    assert KEY !in RESERVED && CONNECTION !in RESERVED && KEY != CONNECTION;
  }

  lemma PlainKey(saved: Dict, before: Dict, current: Dict, patch: Dict, k: string)
    requires k !in NOT_PLAIN && AgreeAt(saved, DeepMerge(before, patch), k)
    ensures AgreeAt(Updated(current, saved), DeepMerge(current, patch), k) <==>
            (Touches(before, patch, k) ==> AlikeAt(before, current, patch, k))
  {
    AlikeKey(before, current, patch, k);
  }

  lemma AgreeThrough(a: Dict, b: Dict, c: Dict, exempt: set<string>)
    requires AgreeBut(a, b, exempt)
    ensures AgreeBut(a, c, exempt) <==> AgreeBut(b, c, exempt)
  {
    forall k | k !in exempt ensures AgreeAt(a, c, k) <==> AgreeAt(b, c, k) {
      assert AgreeAt(a, b, k);
    }
  }

  lemma ConnectionKey(saved: Dict, before: Dict, current: Dict, patch: Dict)
    requires CONNECTION in saved.fields <==> Touches(before, patch, CONNECTION)
    requires AgreeBut(DictAt(saved, CONNECTION), DictAt(DeepMerge(before, patch), CONNECTION), {CONNECTED_AT})
    ensures AgreeBut(DictAt(Updated(current, saved), CONNECTION), DictAt(DeepMerge(current, patch), CONNECTION),
                     {CONNECTED_AT})
            <==> (Touches(before, patch, CONNECTION) ==> ConnectionAlike(before, current, patch))
  {
    var after := DictAt(DeepMerge(current, patch), CONNECTION);
    DictAtMerged(before, patch, CONNECTION);
    DictAtMerged(current, patch, CONNECTION);
    if Touches(before, patch, CONNECTION) {
      assert DictAt(Updated(current, saved), CONNECTION) == DictAt(saved, CONNECTION);
      AgreeThrough(DictAt(saved, CONNECTION), DictAt(DeepMerge(before, patch), CONNECTION), after, {CONNECTED_AT});
      if CONNECTION in patch.fields && patch.fields[CONNECTION].Object? {
        SameBut(DictAt(before, CONNECTION), DictAt(current, CONNECTION), patch.fields[CONNECTION], {CONNECTED_AT});
      }
    } else {
      assert DictAt(Updated(current, saved), CONNECTION) == DictAt(current, CONNECTION);
    }
  }

  /**
   A save written over a record that changed since it was read leaves, on every path it
   leaves to the patch, what patching the changed record would, exactly if its patch
   does not see the change; otherwise a setting saved in between is lost.
   */
  lemma LateSaveExactly(defaults: Dict, before: Dict, byKey: Option<Dict>, patch: Dict, now: string, current: Dict)
    requires Save(defaults, Some(before), byKey, patch, now).Ok?
    ensures var saved: Dict := Save(defaults, Some(before), byKey, patch, now).value;
            Unseen(before, current, patch) <==>
              forall path :: TeamOwned(path) ==>
                Read(Updated(current, saved), path) == Read(DeepMerge(current, patch), path)
  {
    var saved: Dict := Save(defaults, Some(before), byKey, patch, now).value;
    SavedFields(defaults, before, byKey, patch, now);
    AlikeIffAgree(Updated(current, saved), DeepMerge(current, patch));
    forall k | k !in NOT_PLAIN
      ensures AgreeAt(Updated(current, saved), DeepMerge(current, patch), k) <==>
              (Touches(before, patch, k) ==> AlikeAt(before, current, patch, k))
    {
      assert AgreeAt(saved, DeepMerge(before, patch), k);
      PlainKey(saved, before, current, patch, k);
    }
    ConnectionKey(saved, before, current, patch);
    assert OwnedAlike(Updated(current, saved), DeepMerge(current, patch)) <==>
             forall path :: TeamOwned(path) ==>
               Read(Updated(current, saved), path) == Read(DeepMerge(current, patch), path);
  }

  /**
   In particular, of a setting the patch does not name the change is lost exactly if the
   save had read it with another value.
   */
  lemma SettingLostExactly(defaults: Dict, before: Dict, byKey: Option<Dict>, patch: Dict, now: string, current: Dict,
                           k: string)
    requires Save(defaults, Some(before), byKey, patch, now).Ok?
    requires k !in NOT_PLAIN && k !in patch.fields && k in current.fields
    ensures var saved: Dict := Save(defaults, Some(before), byKey, patch, now).value;
            !AgreeAt(Updated(current, saved), current, k) <==>
              k in before.fields && before.fields[k] != current.fields[k]
  {
    var saved: Dict := Save(defaults, Some(before), byKey, patch, now).value;
    SavedFields(defaults, before, byKey, patch, now);
    assert AgreeAt(saved, DeepMerge(before, patch), k);
  }
}
