/** The document and media services as they run: tables and object store as fields that the
    methods rewrite, each method proved against the whole-state functions of Documents. */
module DocumentService {
  import opened Documents
  import opened Options
  import Versions

  class DocumentService {
    var media: map<nat, Media>
    var docs: map<string, Doc>
    var parts: map<nat, Part>
    var objects: map<string, string>
    const purgeAfter: int

    constructor (purgeAfter: int)
      ensures State() == Db(map[], map[], map[], map[]) && this.purgeAfter == purgeAfter && Valid()
    {
      media, docs, parts, objects := map[], map[], map[], map[];
      this.purgeAfter := purgeAfter;
      new;
      EmptyInv();
    }

    function State(): Db
      reads this
    { Db(media, docs, parts, objects) }

    ghost predicate Valid()
      reads this
    { Inv(State()) }

    /** INSERT ... ON CONFLICT (object_key) DO UPDATE */
    method InsertBlob(key: string, size: Option<nat>, uuid: nat) returns (m: nat)
      requires UniqueKeys(media) && uuid !in media
      modifies this`media
      ensures (media, m) == Upserted(old(media), key, size, uuid)
      ensures m in media && media[m].key == key && media[m].size == size && media - {m} == old(media) - {m}
      ensures if m in old(media) then media[m] == old(media)[m].(size := size) else m == uuid && media[m].mark == None
      ensures forall row | row in old(media) && old(media)[row].key == key :: m == row
      ensures UniqueKeys(media)
    {
      UpsertUnique(media, key, size, uuid);
      if row :| row in media && media[row].key == key {
        m := row;
        media := media[row := media[row].(size := size)];
      } else {
        m := uuid;
        media := media[uuid := Media(key, size, None)];
      }
    }

    method PartRowByLocator(doc: string, locator: string) returns (r: Option<nat>)
      requires UniqueParts(parts)
      ensures r == PartAt(parts, doc, locator)
      ensures r.Some? ==> r.value in parts && parts[r.value].doc == doc && parts[r.value].locator == locator
      ensures forall p | p in parts && parts[p].doc == doc && parts[p].locator == locator :: r == Some(p)
    {
      if p :| p in parts && parts[p].doc == doc && parts[p].locator == locator { return Some(p); }
      return None;
    }

    method CreateUpload(doc: string, uuid: nat)
      requires Valid() && Fresh(State(), Upload(doc, uuid))
      modifies this
      ensures Valid() && State() == RequestUpload(old(State()), doc, uuid)
      ensures media == old(media)[uuid := Media("doc/" + doc + "/original", None, None)]
      ensures docs == old(docs)[doc := Doc(uuid, None)] && parts == old(parts) && objects == old(objects)
    {
      InvUpload(State(), doc, uuid);
      KeysOwned(doc, "", "");
      assert OriginalKey(doc) == "doc/" + doc + "/original";
      var m := InsertBlob(OriginalKey(doc), None, uuid);
      assert m == uuid && media == old(media)[uuid := Media(OriginalKey(doc), None, None)] by {
        UpsertsNew(old(media), OriginalKey(doc), None, uuid);
      }
      docs := docs[doc := Doc(m, None)];
    }

    /** The transaction that records a stored region: its blob row, then its part unless
        another run has recorded one. */
    method RecordPart(doc: string, locator: string, size: nat, uuid: nat, part: nat) returns (r: Option<nat>)
      requires UniqueKeys(media) && UniqueParts(parts) && uuid !in media
      modifies this`media, this`parts
      ensures State() == PartTxn(old(State()), doc, locator, size, uuid, part).0
      ensures r == if doc !in docs then None
                   else if PartAt(old(parts), doc, locator).Some? then PartAt(old(parts), doc, locator) else Some(part)
      ensures doc !in docs ==> media == old(media) && parts == old(parts)
      ensures doc in docs ==> exists m ::
                && m in media && media[m].key == PartKey(doc, locator) && media[m].size == Some(size)
                && media - {m} == old(media) - {m}
                && (m in old(media) ==> media[m].mark == old(media)[m].mark) && (m !in old(media) ==> media[m].mark == None)
                && (if forall p | p in old(parts) :: old(parts)[p].doc != doc || old(parts)[p].locator != locator
                    then parts == old(parts)[part := Part(doc, locator, Some(m), None)]
                    else parts == old(parts))
    {
      hide UniqueKeys, UniqueParts, PartAt, Upserted, PartKey;
      if doc !in docs { return None; }
      var m := InsertBlob(PartKey(doc, locator), Some(size), uuid);
      r := PartRowByLocator(doc, locator);
      if r.Some? { return; }
      parts := parts[part := Part(doc, locator, Some(m), None)];
      return Some(part);
    }

    /** Returns the region's part, or None when the document row is gone.  Finding the part
        leaves tables and store untouched. */
    method MaterializePart(doc: string, locator: string, content: string, uuid: nat, part: nat)
      returns (r: Option<nat>)
      requires Valid() && Fresh(State(), AddPart(doc, locator, content, uuid, part))
      modifies this
      ensures Valid() && State() == EnsurePart(old(State()), doc, locator, content, uuid, part)
      ensures r.Some? <==> doc in old(docs)
      ensures r.Some? ==> Serves(State(), r.value, doc, locator)
      ensures docs == old(docs)
      ensures (forall p | p in old(parts) :: old(parts)[p].doc != doc || old(parts)[p].locator != locator) ==>
                && objects == old(objects)["doc/" + doc + "/" + locator := content]
                && (r.None? ==> media == old(media) && parts == old(parts))
                && (r.Some? ==> exists m ::
                      && r == Some(part) && parts == old(parts)[part := Part(doc, locator, Some(m), None)]
                      && m in media && media[m].key == "doc/" + doc + "/" + locator
                      && media[m].size == Some(|content|) && media - {m} == old(media) - {m}
                      && (m in old(media) ==> media[m].mark == old(media)[m].mark)
                      && (m !in old(media) ==> media[m].mark == None))
      ensures var found := old(PartAt(parts, doc, locator)); found.Some? ==> r == found && State() == old(State())
    {
      InvPart(State(), doc, locator, content, uuid, part);
      assert UniqueParts(parts) && UniqueKeys(media) && uuid !in media;
      hide Inv, PartKey, Fresh, PartAt, Upserted, UniqueKeys, UniqueParts, EnsurePart, PartTxn, Serves;
      EnsureEnds(State(), doc, locator, content, uuid, part);
      var existing := PartRowByLocator(doc, locator);
      if existing.Some? && parts[existing.value].media.Some? { return existing; }
      objects := objects[PartKey(doc, locator) := content];
      r := RecordPart(doc, locator, |content|, uuid, part);
    }

    /** The original blob as the document's single page: the part already there, else a new one
        for a live document, else None. */
    method RegisterSourcePart(doc: string, part: nat) returns (r: Option<nat>)
      requires Valid() && Fresh(State(), AddSourcePart(doc, part))
      modifies this
      ensures Valid() && State() == EnsureSourcePart(old(State()), doc, part)
      ensures media == old(media) && docs == old(docs) && objects == old(objects)
      ensures var locator := Versions.PageLocator(1);
              && (forall p | p in old(parts) && old(parts)[p].doc == doc && old(parts)[p].locator == locator ::
                    r == Some(p) && parts == old(parts))
              && ((forall p | p in old(parts) :: old(parts)[p].doc != doc || old(parts)[p].locator != locator) ==>
                    if doc in docs && docs[doc].mark.None?
                    then r == Some(part)
                         && parts == old(parts)[part := Part(doc, locator, Some(docs[doc].media), None)]
                    else r == None && parts == old(parts))
    {
      hide Inv, Fresh, UniqueKeys, UniqueParts, PartAt, Homed, Versions.PageLocator;
      InvSourcePart(State(), doc, part);
      InvUnique(State());
      var locator := Versions.PageLocator(1);
      r := PartRowByLocator(doc, locator);
      if r.Some? { return; }
      if !(doc in docs && docs[doc].mark.None?) { return None; }
      parts := parts[part := Part(doc, locator, Some(docs[doc].media), None)];
      return Some(part);
    }

    method MaterializeThumb(source: nat, content: string, uuid: nat) returns (r: Option<nat>)
      requires Valid() && uuid !in media
      modifies this
      ensures Valid() && (State(), r) == EnsureThumb(old(State()), source, content, uuid)
      ensures docs == old(docs) && parts == old(parts)
      ensures r.Some? <==> source in old(media) && old(media)[source].mark.None?
      ensures r.None? ==> media == old(media) && objects == old(objects)
      ensures r.Some? ==>
                var m, key := r.value, old(media)[source].key + ".thumb";
                && m in media && media[m].key == key
                && (if m in old(media) && old(media)[m].mark.None?
                    then media == old(media) && objects == old(objects)
                    else && objects == old(objects)[key := content] && media - {m} == old(media) - {m}
                         && media[m] == Media(key, Some(|content|),
                                              if m in old(media) then old(media)[m].mark else None))
    {
      hide Inv, Upserted, KeyRow, UniqueKeys, UniqueParts, Homed;
      InvThumb(State(), source, content, uuid);
      InvUnique(State());
      if !(source in media && media[source].mark.None?) { return None; }
      var key := ThumbKey(media[source].key);
      LiveRow(media, key);
      if row :| row in media && media[row].key == key && media[row].mark.None? { return Some(row); }
      objects := objects[key := content];
      var m := InsertBlob(key, Some(|content|), uuid);
      return Some(m);
    }

    /** Set once; refused when the thumbnail's row is gone (its foreign key). */
    method RecordPartThumb(part: nat, thumb: nat) returns (ok: bool)
      requires Valid() && Fresh(State(), SetThumb(part, thumb))
      modifies this`parts
      ensures Valid() && State() == SetPartThumb(old(State()), part, thumb)
      ensures part in old(parts) && old(parts)[part].thumb.None? && thumb in media ==>
                parts == old(parts)[part := old(parts)[part].(thumb := Some(thumb))]
      ensures !(part in old(parts) && old(parts)[part].thumb.None? && thumb in media) ==> parts == old(parts)
      ensures !ok <==> part in old(parts) && old(parts)[part].thumb.None? && thumb !in media
    {
      InvSetThumb(State(), part, thumb);
      hide Inv, Fresh;
      if part in parts && parts[part].thumb.None? {
        if thumb !in media { return false; }
        parts := parts[part := parts[part].(thumb := Some(thumb))];
      }
      return true;
    }

    /** Soft-delete the named live documents and mark all their recorded blobs. */
    method DeleteDocuments(ids: set<string>, now: int) returns (count: nat)
      requires Valid()
      modifies this
      ensures Valid() && State() == Delete(old(State()), ids, now, purgeAfter)
      ensures count == |set d | d in ids && d in old(docs) && old(docs)[d].mark.None?|
    {
      LiveIdsSet(State(), ids);
      hide Inv, Delete, LiveIds, RecordedBlobs, MarkedMedia, MarkedDocs;
      DeletionIs(State(), ids, now, purgeAfter);
      if ids == {} { return 0; }
      var live, mark := LiveIds(State(), ids), Mark(now, now + purgeAfter);
      var blobs := RecordedBlobs(State(), live);
      media := MarkedMedia(media, blobs, mark);
      docs := MarkedDocs(docs, live, mark);
      count := |live|;
    }

    /** Delete each due object; remove the rows whose object is gone. */
    method PurgeExpired(now: int, failing: set<string>) returns (count: nat)
      requires Valid()
      modifies this
      ensures Valid() && State() == Purge(old(State()), now, failing)
      ensures count == |set m | m in old(media) && old(media)[m].mark.Some? && old(media)[m].mark.value.due <= now
                                && old(media)[m].key !in failing|
    {
      hide Inv, Purge, RemoveRows, Without;
      ghost var db := State();
      InvPurge(db, now, failing);
      PurgeAs(db, now, failing);
      var rows := set m | m in media && Due(media, m, now);
      var gone: set<nat> := {};
      ghost var all := Swept(db.media, now, failing);
      assert all == set m | m in media && media[m].mark.Some? && media[m].mark.value.due <= now
                            && media[m].key !in failing;
      NoneWithout(db);
      while rows != {}
        invariant media == db.media && docs == db.docs && parts == db.parts
        invariant (forall m :: m in rows || m in gone ==> m in db.media)
        invariant forall m :: m in all <==> m in gone || (m in rows && db.media[m].key !in failing)
        invariant objects == Without(db, gone)
        decreases rows
      {
        var m :| m in rows;
        rows := rows - {m};
        if media[m].key !in failing {
          WithoutStep(db, gone, m);
          objects := objects - {media[m].key};
          gone := gone + {m};
        }
      }
      assert gone == all;
      if gone == {} {
        NothingRemoved(db, objects);
        return 0;
      }
      var db' := RemoveRows(State(), gone);
      RemoveKeepsObjects(State(), gone);
      media, docs, parts := db'.media, db'.docs, db'.parts;
      count := |gone|;
    }
  }

  /** The part is the region's, and its blob has a row. */
  predicate Serves(db: Db, p: nat, doc: string, locator: string) {
    && p in db.parts && db.parts[p].doc == doc && db.parts[p].locator == locator
    && db.parts[p].media.Some? && db.parts[p].media.value in db.media
  }

  /** The ends of `ensure_part`: the region found, or stored and recorded. */
  lemma EnsureEnds(db: Db, doc: string, locator: string, content: string, uuid: nat, part: nat)
    requires Inv(db) && uuid !in db.media
    ensures var found := PartAt(db.parts, doc, locator);
            var db' := EnsurePart(db, doc, locator, content, uuid, part);
            var stored := db.(objects := db.objects[PartKey(doc, locator) := content]);
            if found.Some?
            then db' == db && Serves(db, found.value, doc, locator) && db.parts[found.value].media.Some? && doc in db.docs
            else db' == PartTxn(stored, doc, locator, |content|, uuid, part).0
                 && (doc in db.docs ==> Serves(db', part, doc, locator))
  {
    UpsertUnique(db.media, PartKey(doc, locator), Some(|content|), uuid);
    hide PartKey, Upserted, UniqueKeys, UniqueParts, MarksFollow, Stored;
  }

  lemma UpsertsNew(media: map<nat, Media>, key: string, size: Option<nat>, uuid: nat)
    requires forall m | m in media :: media[m].key != key
    ensures Upserted(media, key, size, uuid) == (media[uuid := Media(key, size, None)], uuid)
  {}

  lemma LiveRow(media: map<nat, Media>, key: string)
    requires UniqueKeys(media)
    ensures forall row | row in media && media[row].key == key :: KeyRow(media, key) == Some(row)
    ensures KeyRow(media, key).Some? ==> KeyRow(media, key).value in media && media[KeyRow(media, key).value].key == key
  {}

  lemma NoneWithout(db: Db)
    ensures Without(db, {}) == db.objects
  {}

  lemma RemoveKeepsObjects(db: Db, gone: set<nat>)
    ensures RemoveRows(db, gone).objects == db.objects
  {}

  /** The documents a deletion names that are live. */
  function LiveIds(db: Db, ids: set<string>): set<string> {
    set d | d in ids && d in db.docs && db.docs[d].mark.None?
  }

  lemma LiveIdsSet(db: Db, ids: set<string>)
    ensures LiveIds(db, ids) == set d | d in ids && d in db.docs && db.docs[d].mark.None?
  {}

  lemma LiveIdsAre(db: Db, ids: set<string>)
    ensures forall d :: d in LiveIds(db, ids) <==> d in ids && LiveDoc(db, d)
    ensures ids == {} ==> |LiveIds(db, ids)| == 0
  {
    if ids == {} { assert LiveIds(db, ids) == {}; }
  }

  /** The `blob_ids` of the deletion query: originals, parts' blobs and thumbnails. */
  function RecordedBlobs(db: Db, live: set<string>): set<nat>
    requires forall d | d in live :: d in db.docs
  {
    (set d | d in live :: db.docs[d].media)
    + (set p | p in db.parts && db.parts[p].doc in live && db.parts[p].media.Some? :: db.parts[p].media.value)
    + (set p | p in db.parts && db.parts[p].doc in live && db.parts[p].thumb.Some? :: db.parts[p].thumb.value)
  }

  lemma BlobsAreRecorded(db: Db, ids: set<string>)
    ensures forall m :: m in RecordedBlobs(db, LiveIds(db, ids))
                        <==> exists d :: d in ids && LiveDoc(db, d) && Records(db, d, m)
  {
    var live := LiveIds(db, ids);
    var blobs := RecordedBlobs(db, live);
    forall m ensures m in blobs <==> exists d :: d in ids && LiveDoc(db, d) && Records(db, d, m) {
      if m in blobs {
        if d :| d in live && db.docs[d].media == m {
          assert LiveDoc(db, d) && Records(db, d, m);
        } else if p :| p in db.parts && db.parts[p].doc in live
                       && (db.parts[p].media == Some(m) || db.parts[p].thumb == Some(m)) {
          assert LiveDoc(db, db.parts[p].doc) && Records(db, db.parts[p].doc, m);
        }
      }
      if d :| d in ids && LiveDoc(db, d) && Records(db, d, m) { assert d in live; }
    }
  }

  /** The update of the blob rows: those named and not yet marked. */
  function MarkedMedia(media: map<nat, Media>, blobs: set<nat>, mark: Mark): map<nat, Media> {
    map m | m in media :: if m in blobs && media[m].mark.None? then media[m].(mark := Some(mark)) else media[m]
  }

  function MarkedDocs(docs: map<string, Doc>, live: set<string>, mark: Mark): map<string, Doc> {
    map d | d in docs :: if d in live then docs[d].(mark := Some(mark)) else docs[d]
  }

  /** The two updates make the deletion. */
  lemma DeleteAs(db: Db, ids: set<string>, now: int, purge: int)
    ensures var live, mark := LiveIds(db, ids), Mark(now, now + purge);
            Delete(db, ids, now, purge)
            == db.(media := MarkedMedia(db.media, RecordedBlobs(db, live), mark), docs := MarkedDocs(db.docs, live, mark))
  {
    BlobsAreRecorded(db, ids);
    LiveIdsAre(db, ids);
    var live, mark := LiveIds(db, ids), Mark(now, now + purge);
    var blobs := RecordedBlobs(db, live);
    hide Records, LiveDoc, LiveIds, RecordedBlobs;
    assert MarkedMedia(db.media, blobs, mark) == Delete(db, ids, now, purge).media;
    assert MarkedDocs(db.docs, live, mark) == Delete(db, ids, now, purge).docs;
  }

  /** All a deletion does: its two updates, none for no ids, and the invariant kept. */
  lemma DeletionIs(db: Db, ids: set<string>, now: int, purge: int)
    requires Inv(db)
    ensures Inv(Delete(db, ids, now, purge))
    ensures forall d | d in LiveIds(db, ids) :: d in db.docs
    ensures var live, mark := LiveIds(db, ids), Mark(now, now + purge);
            Delete(db, ids, now, purge)
            == db.(media := MarkedMedia(db.media, RecordedBlobs(db, live), mark), docs := MarkedDocs(db.docs, live, mark))
    ensures ids == {} ==> Delete(db, ids, now, purge) == db && |LiveIds(db, ids)| == 0
  {
    hide Inv, Delete, RecordedBlobs, MarkedMedia, MarkedDocs;
    InvDelete(db, ids, now, purge);
    LiveIdsAre(db, ids);
    DeleteAs(db, ids, now, purge);
    NothingDeleted(db, now, purge);
  }

  lemma NothingDeleted(db: Db, now: int, purge: int)
    ensures Delete(db, {}, now, purge) == db
  {
    assert Delete(db, {}, now, purge).media == db.media && Delete(db, {}, now, purge).docs == db.docs;
  }

  /** What is left in the store when the objects of the rows `gone` are deleted. */
  function Without(db: Db, gone: set<nat>): map<string, string>
    requires forall m | m in gone :: m in db.media
  {
    map k | k in db.objects && !(exists m | m in gone :: db.media[m].key == k) :: db.objects[k]
  }

  lemma WithoutStep(db: Db, gone: set<nat>, m: nat)
    requires m in db.media && forall n | n in gone :: n in db.media
    ensures Without(db, gone + {m}) == Without(db, gone) - {db.media[m].key}
  {}

  lemma PurgeAs(db: Db, now: int, failing: set<string>)
    ensures var gone := Swept(db.media, now, failing);
            Purge(db, now, failing) == RemoveRows(db.(objects := Without(db, gone)), gone)
  {
    var gone := Swept(db.media, now, failing);
    assert Without(db, gone)
        == map k | k in db.objects && !(exists m :: m in gone && db.media[m].key == k) :: db.objects[k];
    hide Swept, Without, RemoveRows;
  }

  lemma NothingRemoved(db: Db, objects: map<string, string>)
    requires Inv(db)
    ensures RemoveRows(db.(objects := objects), {}) == db.(objects := objects)
  {
    forall p | p in db.parts ensures db.parts[p].doc in db.docs { assert Homed(db); }
    hide Inv;
    var db' := RemoveRows(db.(objects := objects), {});
    assert db'.docs == db.docs;
    assert db'.media == db.media;
    assert db'.parts == db.parts;
  }
}
