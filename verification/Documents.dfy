/** The document tables and the object store (doci/documents/service.py,
    doci/media/service.py): each completed call as one change of the whole state, and what
    whole runs of such calls keep.  UUIDs of rows are numbers; a document's UUID is its text. */
module Documents {
  import opened Options
  import opened Text
  import Versions

  // ------------------------------------------------------------ object keys

  /** `doc/{id}/` */
  function Prefix(doc: string): string { "doc/" + doc + "/" }

  function OriginalKey(doc: string): string { Prefix(doc) + "original" }

  /** `doc/{id}/{locator}` */
  function PartKey(doc: string, locator: string): string { Prefix(doc) + locator }

  function ThumbKey(key: string): string { key + ".thumb" }

  /** A document id is a UUID text: it has no slash. */
  predicate DocId(doc: string) { '/' !in doc }

  /** The key lies in the document's folder. */
  predicate Owns(doc: string, key: string) { DocId(doc) && Prefix(doc) <= key }

  lemma {:induction false} FolderUnique(d: string, e: string, x: string, y: string)
    requires DocId(d) && DocId(e) && d + "/" + x == e + "/" + y
    ensures d == e && x == y
  {
    if d == [] || e == [] {
      assert (d + "/" + x)[0] == (e + "/" + y)[0];
      assert d == e;
      assert x == (d + "/" + x)[1..] && y == (e + "/" + y)[1..];
    } else {
      assert (d + "/" + x)[0] == d[0] && (e + "/" + y)[0] == e[0];
      assert (d + "/" + x)[1..] == d[1..] + "/" + x && (e + "/" + y)[1..] == e[1..] + "/" + y;
      FolderUnique(d[1..], e[1..], x, y);
    }
  }

  lemma KeySplits(d: string, e: string, x: string, y: string)
    requires DocId(d) && DocId(e) && Prefix(d) + x == Prefix(e) + y
    ensures d == e && x == y
  {
    assert (Prefix(d) + x)[4..] == d + "/" + x;
    assert (Prefix(e) + y)[4..] == e + "/" + y;
    FolderUnique(d, e, x, y);
  }

  /** No key lies in the folders of two documents. */
  lemma OwnerUnique(d: string, e: string, key: string)
    requires Owns(d, key) && Owns(e, key)
    ensures d == e
  {
    var x, y := key[|Prefix(d)|..], key[|Prefix(e)|..];
    assert key == Prefix(d) + x && key == Prefix(e) + y;
    SplitsIff(d, e, x, y);
  }

  lemma KeysOwned(doc: string, locator: string, key: string)
    requires DocId(doc)
    ensures Owns(doc, OriginalKey(doc)) && Owns(doc, PartKey(doc, locator))
    ensures Owns(doc, key) ==> Owns(doc, ThumbKey(key))
  {}

  /** Original, page and thumbnail keys of all documents and pages are pairwise different. */
  lemma PageKeysDistinct(d: string, e: string, a: nat, b: nat)
    requires DocId(d) && DocId(e)
    ensures var k, l := PartKey(d, Versions.PageLocator(a)), PartKey(e, Versions.PageLocator(b));
            && (k == l <==> d == e && a == b)
            && (ThumbKey(k) == ThumbKey(l) <==> d == e && a == b)
            && k != OriginalKey(e) && k != ThumbKey(l) && k != ThumbKey(OriginalKey(e))
            && ThumbKey(k) != OriginalKey(e) && ThumbKey(k) != ThumbKey(OriginalKey(e))
            && (OriginalKey(d) == OriginalKey(e) <==> d == e)
  {
    hide Prefix, DocId, Versions.PageLocator;
    var x, y := Versions.PageLocator(a), Versions.PageLocator(b);
    if x == y { Versions.PageLocatorInjective(a, b); }
    LocatorShape(a);
    LocatorShape(b);
    NamesDistinct(x, y);
    assert ThumbKey(PartKey(d, x)) == Prefix(d) + (x + ".thumb");
    assert ThumbKey(PartKey(e, y)) == Prefix(e) + (y + ".thumb");
    assert ThumbKey(OriginalKey(e)) == Prefix(e) + ("original" + ".thumb");
    SplitsIff(d, e, x, y);
    SplitsIff(d, e, x, y + ".thumb");
    SplitsIff(d, e, x, "original");
    SplitsIff(d, e, x, "original" + ".thumb");
    SplitsIff(d, e, x + ".thumb", y + ".thumb");
    SplitsIff(d, e, x + ".thumb", "original");
    SplitsIff(d, e, x + ".thumb", "original" + ".thumb");
    SplitsIff(d, e, "original", "original");
  }

  lemma SplitsIff(d: string, e: string, x: string, y: string)
    requires DocId(d) && DocId(e)
    ensures Prefix(d) + x == Prefix(e) + y <==> d == e && x == y
  {
    if Prefix(d) + x == Prefix(e) + y { KeySplits(d, e, x, y); }
    hide Prefix;
  }

  lemma NamesDistinct(x: string, y: string)
    requires x != [] && y != [] && x[0] == 'p' && y[0] == 'p' && '.' !in x && '.' !in y
    ensures x + ".thumb" == y + ".thumb" <==> x == y
    ensures x != y + ".thumb" && x != "original" && x != "original" + ".thumb"
    ensures x + ".thumb" != "original" && x + ".thumb" != "original" + ".thumb"
  {
    if x + ".thumb" == y + ".thumb" { assert (x + ".thumb")[..|x|] == x && (y + ".thumb")[..|x|] == y; }
    assert (x + ".thumb")[0] == 'p' && ("original" + ".thumb")[0] == 'o' && "original"[0] == 'o';
    assert (y + ".thumb")[|y|] == '.';
  }

  lemma LocatorShape(page: nat)
    ensures var l := Versions.PageLocator(page); l != [] && l[0] == 'p' && '.' !in l
  {
    forall i | 0 <= i < |Versions.PageLocator(page)| ensures Versions.PageLocator(page)[i] != '.' {
      if i > 0 { assert Versions.PageLocator(page)[i] == Pad(5, page)[i - 1]; }
    }
  }

  /** A free-form locator keeps apart from the original exactly when it is not "original", and
      from another region's thumbnail exactly when it does not end that region's way. */
  lemma LocatorCollidesIff(doc: string, locator: string, other: string)
    requires DocId(doc)
    ensures PartKey(doc, locator) == OriginalKey(doc) <==> locator == "original"
    ensures PartKey(doc, locator) == ThumbKey(PartKey(doc, other)) <==> locator == other + ".thumb"
  {
    assert ThumbKey(PartKey(doc, other)) == Prefix(doc) + (other + ".thumb");
    forall u: string, v: string | Prefix(doc) + u == Prefix(doc) + v ensures u == v { KeySplits(doc, doc, u, v); }
  }

  // ----------------------------------------------------------------- tables

  /** Soft deletion: when it was marked and when it may be purged. */
  datatype Mark = Mark(at: int, due: int)

  datatype Media = Media(key: string, size: Option<nat>, mark: Option<Mark>)
  datatype Doc = Doc(media: nat, mark: Option<Mark>)
  datatype Part = Part(doc: string, locator: string, media: Option<nat>, thumb: Option<nat>)

  datatype Db = Db(media: map<nat, Media>, docs: map<string, Doc>, parts: map<nat, Part>, objects: map<string, string>)

  /** The media row of a key (`object_key` is unique). */
  ghost function KeyRow(media: map<nat, Media>, key: string): Option<nat> {
    if m :| m in media && media[m].key == key then Some(m) else None
  }

  /** `_part_row_by_locator` */
  ghost function PartAt(parts: map<nat, Part>, doc: string, locator: string): Option<nat> {
    if p :| p in parts && parts[p].doc == doc && parts[p].locator == locator then Some(p) else None
  }

  /** `insert_blob`: a row for a known key only gets the new size; its mark stays. */
  ghost function Upserted(media: map<nat, Media>, key: string, size: Option<nat>, uuid: nat): (map<nat, Media>, nat) {
    match KeyRow(media, key)
    case Some(m) => (media[m := media[m].(size := size)], m)
    case None => (media[uuid := Media(key, size, None)], uuid)
  }

  predicate LiveDoc(db: Db, doc: string) { doc in db.docs && db.docs[doc].mark.None? }

  /** The blobs recorded for a document: its original, and its parts' blobs and thumbnails. */
  ghost predicate Records(db: Db, doc: string, m: nat) {
    || (doc in db.docs && db.docs[doc].media == m)
    || (exists p :: p in db.parts && db.parts[p].doc == doc
                    && (db.parts[p].media == Some(m) || db.parts[p].thumb == Some(m)))
  }

  // ------------------------------------------------------------- operations

  ghost function RequestUpload(db: Db, doc: string, uuid: nat): Db {
    var (media, m) := Upserted(db.media, OriginalKey(doc), None, uuid);
    db.(media := media, docs := db.docs[doc := Doc(m, None)])
  }

  /** The insert transaction of `ensure_part`: upsert the blob row, insert the part unless one
      has its (document, locator).  Fails whole when the document row is gone. */
  ghost function PartTxn(db: Db, doc: string, locator: string, size: nat, uuid: nat, part: nat): (Db, Option<nat>) {
    if doc !in db.docs then (db, None)
    else
      var (media, m) := Upserted(db.media, PartKey(doc, locator), Some(size), uuid);
      if PartAt(db.parts, doc, locator).Some? then (db.(media := media), None)
      else (db.(media := media, parts := db.parts[part := Part(doc, locator, Some(m), None)]), Some(part))
  }

  predicate HasPart(parts: map<nat, Part>, found: Option<nat>) {
    found.Some? && found.value in parts && parts[found.value].media.Some?
  }

  ghost function EnsurePart(db: Db, doc: string, locator: string, content: string, uuid: nat, part: nat): Db {
    if HasPart(db.parts, PartAt(db.parts, doc, locator)) then db
    else PartTxn(db.(objects := db.objects[PartKey(doc, locator) := content]), doc, locator, |content|, uuid, part).0
  }

  ghost function EnsureSourcePart(db: Db, doc: string, part: nat): Db {
    var locator := Versions.PageLocator(1);
    if PartAt(db.parts, doc, locator).Some? || !LiveDoc(db, doc) then db
    else db.(parts := db.parts[part := Part(doc, locator, Some(db.docs[doc].media), None)])
  }

  predicate Unmarked(media: map<nat, Media>, m: nat) { m in media && media[m].mark.None? }

  /** `MediaService.ensure_thumb`: the thumbnail's row, or None when the source is gone. */
  ghost function EnsureThumb(db: Db, source: nat, content: string, uuid: nat): (Db, Option<nat>) {
    if !Unmarked(db.media, source) then (db, None)
    else
      var key := ThumbKey(db.media[source].key);
      var row := KeyRow(db.media, key);
      if row.Some? && db.media[row.value].mark.None? then (db, row)
      else
        var (media, m) := Upserted(db.media, key, Some(|content|), uuid);
        (db.(media := media, objects := db.objects[key := content]), Some(m))
  }

  /** `set_part_thumb`: only an unset thumbnail is set, and only to a row that exists. */
  function SetPartThumb(db: Db, part: nat, thumb: nat): Db {
    if part in db.parts && db.parts[part].thumb.None? && thumb in db.media
    then db.(parts := db.parts[part := db.parts[part].(thumb := Some(thumb))])
    else db
  }

  /** `delete`: one transaction over all named documents that are live. */
  ghost function Delete(db: Db, ids: set<string>, now: int, purge: int): Db {
    var mark := Some(Mark(now, now + purge));
    db.(media := map m | m in db.media ::
                   if db.media[m].mark.None? && (exists d :: d in ids && LiveDoc(db, d) && Records(db, d, m))
                   then db.media[m].(mark := mark) else db.media[m],
        docs := map d | d in db.docs ::
                  if d in ids && LiveDoc(db, d) then db.docs[d].(mark := mark) else db.docs[d])
  }

  predicate Due(media: map<nat, Media>, m: nat, now: int) {
    m in media && media[m].mark.Some? && media[m].mark.value.due <= now
  }

  /** Removing media rows cascades to the rows that reference them; thumbnails become null. */
  function RemoveRows(db: Db, gone: set<nat>): Db {
    var docs := map d | d in db.docs && db.docs[d].media !in gone :: db.docs[d];
    Db(map m | m in db.media && m !in gone :: db.media[m],
       docs,
       map p | p in db.parts && db.parts[p].doc in docs
               && (db.parts[p].media.Some? ==> db.parts[p].media.value !in gone) ::
         if db.parts[p].thumb.Some? && db.parts[p].thumb.value in gone then db.parts[p].(thumb := None) else db.parts[p],
       db.objects)
  }

  /** The rows a sweep at `now` removes: due, and their object's deletion did not fail. */
  function Swept(media: map<nat, Media>, now: int, failing: set<string>): set<nat> {
    set m | m in media && Due(media, m, now) && media[m].key !in failing
  }

  /** `purge_expired`: objects first, then the rows whose object is gone. */
  function Purge(db: Db, now: int, failing: set<string>): Db {
    var gone := Swept(db.media, now, failing);
    RemoveRows(db.(objects := map k | k in db.objects && !(exists m :: m in gone && db.media[m].key == k) :: db.objects[k]), gone)
  }

  /** A sweep in full: of the rows marked and due, those whose object could be deleted go with
      their objects; with a row go the documents it is the original of and the parts it is the
      blob of, or whose document goes; a thumbnail that goes is unset. */
  lemma PurgeExact(db: Db, now: int, failing: set<string>)
    ensures var db' := Purge(db, now, failing);
            var gone := set m | m in db.media && db.media[m].mark.Some? && db.media[m].mark.value.due <= now
                                && db.media[m].key !in failing;
            && db'.media == db.media - gone
            && (forall k :: k in db'.objects <==> k in db.objects && forall m | m in gone :: db.media[m].key != k)
            && (forall k | k in db'.objects :: db'.objects[k] == db.objects[k])
            && (forall d :: d in db'.docs <==> d in db.docs && db.docs[d].media !in gone)
            && (forall d | d in db'.docs :: db'.docs[d] == db.docs[d])
            && (forall p :: p in db'.parts <==>
                  && p in db.parts && db.parts[p].doc in db'.docs
                  && (db.parts[p].media.Some? ==> db.parts[p].media.value !in gone))
            && (forall p | p in db'.parts ::
                  var q := db.parts[p];
                  db'.parts[p] == if q.thumb.Some? && q.thumb.value in gone then q.(thumb := None) else q)
  {
    var gone := set m | m in db.media && db.media[m].mark.Some? && db.media[m].mark.value.due <= now
                        && db.media[m].key !in failing;
    assert gone == Swept(db.media, now, failing);
  }

  datatype Op =
    | Upload(doc: string, uuid: nat)
    | ClientPut(doc: string, content: string)
    | AddPart(doc: string, locator: string, content: string, uuid: nat, part: nat)
    | AddSourcePart(doc: string, part: nat)
    | MakeThumb(source: nat, content: string, uuid: nat)
    | SetThumb(part: nat, thumb: nat)
    | Deletion(ids: set<string>, now: int)
    | Sweep(now: int, failing: set<string>)

  ghost function Apply(db: Db, op: Op, purge: int): Db {
    match op
    case Upload(doc, uuid) => RequestUpload(db, doc, uuid)
    case ClientPut(doc, content) => db.(objects := db.objects[OriginalKey(doc) := content])
    case AddPart(doc, locator, content, uuid, part) => EnsurePart(db, doc, locator, content, uuid, part)
    case AddSourcePart(doc, part) => EnsureSourcePart(db, doc, part)
    case MakeThumb(source, content, uuid) => EnsureThumb(db, source, content, uuid).0
    case SetThumb(part, thumb) => SetPartThumb(db, part, thumb)
    case Deletion(ids, now) => Delete(db, ids, now, purge)
    case Sweep(now, failing) => Purge(db, now, failing)
  }

  /** New UUIDs are unused: a new document's folder is empty, new row ids are free.  Callers
      record on a part a thumbnail made from one of its document's blobs. */
  ghost predicate Fresh(db: Db, op: Op) {
    match op
    case Upload(doc, uuid) =>
      DocId(doc) && doc !in db.docs && uuid !in db.media && forall m :: m in db.media ==> !Owns(doc, db.media[m].key)
    case ClientPut(doc, _) => DocId(doc)
    case AddPart(doc, _, _, uuid, part) => DocId(doc) && uuid !in db.media && part !in db.parts
    case AddSourcePart(doc, part) => DocId(doc) && part !in db.parts
    case MakeThumb(_, _, uuid) => uuid !in db.media
    case SetThumb(part, thumb) => part in db.parts && thumb in db.media ==> Owns(db.parts[part].doc, db.media[thumb].key)
    case Deletion(_, _) => true
    case Sweep(_, _) => true
  }

  // -------------------------------------------------------------- invariant

  ghost predicate UniqueKeys(media: map<nat, Media>) {
    forall m, n :: m in media && n in media && media[m].key == media[n].key ==> m == n
  }

  ghost predicate UniqueParts(parts: map<nat, Part>) {
    forall p, q :: p in parts && q in parts && parts[p].doc == parts[q].doc && parts[p].locator == parts[q].locator
                   ==> p == q
  }

  /** Each document's recorded blobs are rows in its own folder. */
  ghost predicate Homed(db: Db) {
    && (forall d :: d in db.docs ==> DocId(d) && db.docs[d].media in db.media
                                     && db.media[db.docs[d].media].key == OriginalKey(d))
    && (forall p :: p in db.parts ==>
          var part := db.parts[p];
          && part.doc in db.docs && part.media.Some? && part.media.value in db.media
          && Owns(part.doc, db.media[part.media.value].key)
          && (part.thumb.Some? ==> part.thumb.value in db.media && Owns(part.doc, db.media[part.thumb.value].key)))
  }

  /** A marked blob in a document's folder means the document is deleted. */
  ghost predicate MarksFollow(db: Db) {
    forall m, d :: m in db.media && db.media[m].mark.Some? && d in db.docs && Owns(d, db.media[m].key)
                   ==> db.docs[d].mark.Some?
  }

  /** Server-made blobs that are not marked have their object. */
  ghost predicate Stored(db: Db) {
    forall m :: m in db.media && db.media[m].mark.None? ==>
      db.media[m].key in db.objects || exists d :: DocId(d) && db.media[m].key == OriginalKey(d)
  }

  ghost predicate Inv(db: Db) {
    UniqueKeys(db.media) && UniqueParts(db.parts) && Homed(db) && MarksFollow(db) && Stored(db)
  }

  lemma UpsertUnique(media: map<nat, Media>, key: string, size: Option<nat>, uuid: nat)
    requires UniqueKeys(media) && uuid !in media
    ensures var (media', m) := Upserted(media, key, size, uuid);
            && UniqueKeys(media') && m in media' && media'[m].key == key
            && (m in media ==> m != uuid && media'[m].mark == media[m].mark)
            && (m !in media ==> m == uuid && media'[m].mark == None && forall n :: n in media ==> media[n].key != key)
            && media'.Keys == media.Keys + {m}
            && forall n :: n in media && n != m ==> media'[n] == media[n]
  {}

  /** Rows keep their key and mark, new rows are unmarked and have their object. */
  ghost predicate Extends(db: Db, db': Db) {
    && db'.docs == db.docs && db'.parts == db.parts && db.objects.Keys <= db'.objects.Keys
    && UniqueKeys(db'.media)
    && (forall m :: m in db.media ==>
          m in db'.media && db'.media[m].key == db.media[m].key && db'.media[m].mark == db.media[m].mark)
    && (forall m :: m in db'.media && m !in db.media ==>
          db'.media[m].mark.None?
          && (db'.media[m].key in db'.objects || exists d :: DocId(d) && db'.media[m].key == OriginalKey(d)))
  }

  lemma InvExtends(db: Db, db': Db)
    requires Inv(db) && Extends(db, db')
    ensures Inv(db')
  {
    hide Owns, OriginalKey, DocId;
  }

  lemma UpsertExtends(db: Db, key: string, content: string, size: Option<nat>, uuid: nat)
    requires Inv(db) && uuid !in db.media
    ensures var (media, m) := Upserted(db.media, key, size, uuid);
            && Extends(db, db.(media := media, objects := db.objects[key := content]))
            && m in media && media[m].key == key
  {
    UpsertUnique(db.media, key, size, uuid);
    hide Upserted;
  }

  /** A new part whose place is free and whose blob lies in its document's folder. */
  lemma InvNewPart(db: Db, doc: string, locator: string, m: nat, part: nat)
    requires Inv(db) && part !in db.parts && doc in db.docs && PartAt(db.parts, doc, locator).None?
    requires m in db.media && Owns(doc, db.media[m].key)
    ensures Inv(db.(parts := db.parts[part := Part(doc, locator, Some(m), None)]))
  {
    hide Owns, OriginalKey, DocId;
  }

  lemma InvPart(db: Db, doc: string, locator: string, content: string, uuid: nat, part: nat)
    requires Inv(db) && Fresh(db, AddPart(doc, locator, content, uuid, part))
    ensures Inv(EnsurePart(db, doc, locator, content, uuid, part))
  {
    var key := PartKey(doc, locator);
    var (media, m) := Upserted(db.media, key, Some(|content|), uuid);
    var stored := db.(objects := db.objects[key := content]);
    var db' := stored.(media := media);
    UpsertExtends(db, key, content, Some(|content|), uuid);
    InvExtends(db, db');
    InvExtends(db, stored);
    KeysOwned(doc, locator, key);
    if doc in db.docs && PartAt(db.parts, doc, locator).None? { InvNewPart(db', doc, locator, m, part); }
    hide Upserted, PartAt, Inv, PartKey;
  }

  lemma InvSourcePart(db: Db, doc: string, part: nat)
    requires Inv(db) && Fresh(db, AddSourcePart(doc, part))
    ensures Inv(EnsureSourcePart(db, doc, part))
  {
    var locator := Versions.PageLocator(1);
    KeysOwned(doc, locator, "");
    if PartAt(db.parts, doc, locator).None? && LiveDoc(db, doc) {
      InvNewPart(db, doc, locator, db.docs[doc].media, part);
    }
  }

  lemma InvThumb(db: Db, source: nat, content: string, uuid: nat)
    requires Inv(db) && uuid !in db.media
    ensures var (db', thumb) := EnsureThumb(db, source, content, uuid);
            && Inv(db') && db'.parts == db.parts && db'.docs == db.docs
            && (forall m :: m in db.media ==> m in db'.media && db'.media[m].key == db.media[m].key)
            && (thumb.Some? ==> source in db.media && thumb.value in db'.media
                                && db'.media[thumb.value].key == ThumbKey(db.media[source].key))
  {
    if Unmarked(db.media, source) {
      var key := ThumbKey(db.media[source].key);
      UpsertExtends(db, key, content, Some(|content|), uuid);
      var media := Upserted(db.media, key, Some(|content|), uuid).0;
      InvExtends(db, db.(media := media, objects := db.objects[key := content]));
    }
    hide Upserted, Inv, ThumbKey;
  }

  lemma InvSetThumb(db: Db, part: nat, thumb: nat)
    requires Inv(db) && Fresh(db, SetThumb(part, thumb))
    ensures Inv(SetPartThumb(db, part, thumb))
  {
    SetThumbHomed(db, part, thumb);
    SetThumbRest(db, part, thumb);
    hide *;
  }

  lemma SetThumbRest(db: Db, part: nat, thumb: nat)
    requires UniqueParts(db.parts) && MarksFollow(db) && Stored(db) && UniqueKeys(db.media)
    ensures var db' := SetPartThumb(db, part, thumb);
            UniqueKeys(db'.media) && UniqueParts(db'.parts) && MarksFollow(db') && Stored(db')
  {
    hide Owns, OriginalKey, DocId, UniqueKeys;
  }

  lemma SetThumbHomed(db: Db, part: nat, thumb: nat)
    requires Homed(db) && Fresh(db, SetThumb(part, thumb))
    ensures Homed(SetPartThumb(db, part, thumb))
  {
    hide Owns, OriginalKey, DocId;
  }

  lemma InvNewDoc(db: Db, doc: string, m: nat)
    requires Inv(db) && DocId(doc) && doc !in db.docs && m in db.media && db.media[m].key == OriginalKey(doc)
    requires forall n :: n in db.media && Owns(doc, db.media[n].key) ==> db.media[n].mark.None?
    ensures Inv(db.(docs := db.docs[doc := Doc(m, None)]))
  {
    hide Owns, OriginalKey, DocId;
  }

  lemma InvUpload(db: Db, doc: string, uuid: nat)
    requires Inv(db) && Fresh(db, Upload(doc, uuid))
    ensures Inv(RequestUpload(db, doc, uuid))
  {
    var key := OriginalKey(doc);
    KeysOwned(doc, "", "");
    UpsertUnique(db.media, key, None, uuid);
    var (media, m) := Upserted(db.media, key, None, uuid);
    var db' := db.(media := media);
    hide Upserted, Owns, OriginalKey, DocId;
    assert Extends(db, db');
    InvExtends(db, db');
    InvNewDoc(db', doc, m);
  }

  lemma InvDelete(db: Db, ids: set<string>, now: int, purge: int)
    requires Inv(db)
    ensures Inv(Delete(db, ids, now, purge))
  {
    hide Owns, OriginalKey, DocId, Delete, Stored, MarksFollow;
    DeleteMarksFollow(db, ids, now, purge);
    DeleteKeepsRows(db, ids, now, purge);
  }

  lemma DeleteMarksFollow(db: Db, ids: set<string>, now: int, purge: int)
    requires Inv(db)
    ensures MarksFollow(Delete(db, ids, now, purge))
  {
    hide Owns, OriginalKey, DocId, Stored, UniqueKeys, UniqueParts;
    var db' := Delete(db, ids, now, purge);
    forall m, d | m in db'.media && db'.media[m].mark.Some? && d in db'.docs && Owns(d, db'.media[m].key)
      ensures db'.docs[d].mark.Some?
    {
      if db.media[m].mark.None? {
        var e :| e in ids && LiveDoc(db, e) && Records(db, e, m);
        RecordedOwned(db, e, m);
        DocNamed(db, d);
        DocNamed(db, e);
        OwnerUnique(d, e, db.media[m].key);
      }
    }
  }

  lemma DocNamed(db: Db, d: string)
    requires Inv(db) && d in db.docs
    ensures DocId(d)
  {}

  lemma DeleteKeepsRows(db: Db, ids: set<string>, now: int, purge: int)
    requires Stored(db)
    ensures var db' := Delete(db, ids, now, purge);
            && db'.media.Keys == db.media.Keys && db'.docs.Keys == db.docs.Keys && db'.parts == db.parts
            && (forall m :: m in db.media ==>
                  && db'.media[m].key == db.media[m].key
                  && (db.media[m].mark.Some? ==> db'.media[m].mark == db.media[m].mark))
            && (forall d :: d in db.docs ==> db'.docs[d].media == db.docs[d].media)
            && Stored(db')
  {
    hide Records, LiveDoc, OriginalKey, DocId;
  }

  lemma RecordedOwned(db: Db, doc: string, m: nat)
    requires Homed(db) && Records(db, doc, m)
    ensures m in db.media && Owns(doc, db.media[m].key)
  {
    KeysOwned(doc, "", "");
    hide OriginalKey;
  }

  /** What a sweep keeps of each table. */
  lemma PurgeKeeps(db: Db, now: int, failing: set<string>)
    requires UniqueKeys(db.media)
    ensures var db' := Purge(db, now, failing);
            && (forall m :: m in db'.media <==> m in db.media && !(Due(db.media, m, now) && db.media[m].key !in failing))
            && (forall m :: m in db'.media ==> db'.media[m] == db.media[m])
            && (forall d :: d in db'.docs <==> d in db.docs && db.docs[d].media !in Swept(db.media, now, failing))
            && (forall d :: d in db'.docs ==> db'.docs[d] == db.docs[d])
            && (forall m :: m in db'.media && db.media[m].key in db.objects ==> db.media[m].key in db'.objects)
            && (forall m :: m in db.media && m !in db'.media ==> db.media[m].key !in db'.objects)
  {}

  lemma PurgeKeepsParts(db: Db, now: int, failing: set<string>)
    ensures var db' := Purge(db, now, failing);
            forall p :: p in db'.parts ==>
              && p in db.parts && db'.parts[p].(thumb := db.parts[p].thumb) == db.parts[p]
              && db.parts[p].doc in db'.docs
              && (db.parts[p].media.Some? ==> db.parts[p].media.value !in Swept(db.media, now, failing))
              && (db'.parts[p].thumb.Some? ==> db'.parts[p].thumb == db.parts[p].thumb
                                               && db.parts[p].thumb.value !in Swept(db.media, now, failing))
  {}

  lemma InvPurge(db: Db, now: int, failing: set<string>)
    requires Inv(db)
    ensures Inv(Purge(db, now, failing))
  {
    PurgeUnique(db, now, failing);
    PurgeHomed(db, now, failing);
    PurgeMarks(db, now, failing);
    PurgeStored(db, now, failing);
    hide *;
  }

  lemma PurgeUnique(db: Db, now: int, failing: set<string>)
    requires Inv(db)
    ensures var db' := Purge(db, now, failing); UniqueKeys(db'.media) && UniqueParts(db'.parts)
  {
    PurgeKeeps(db, now, failing);
    PurgeKeepsParts(db, now, failing);
    hide Owns, OriginalKey, DocId, Purge, Homed, MarksFollow, Stored;
  }

  lemma PurgeHomed(db: Db, now: int, failing: set<string>)
    requires Inv(db)
    ensures Homed(Purge(db, now, failing))
  {
    PurgeKeeps(db, now, failing);
    PurgeKeepsParts(db, now, failing);
    hide Owns, OriginalKey, DocId, Purge, MarksFollow, Stored, UniqueKeys, UniqueParts;
  }

  lemma PurgeMarks(db: Db, now: int, failing: set<string>)
    requires Inv(db)
    ensures MarksFollow(Purge(db, now, failing))
  {
    PurgeKeeps(db, now, failing);
    hide Owns, OriginalKey, DocId, Purge, Homed, Stored, UniqueKeys, UniqueParts;
  }

  lemma PurgeStored(db: Db, now: int, failing: set<string>)
    requires Inv(db)
    ensures Stored(Purge(db, now, failing))
  {
    PurgeKeeps(db, now, failing);
    hide Owns, OriginalKey, DocId, Purge, Homed, MarksFollow, UniqueKeys, UniqueParts;
  }

  /** Every operation keeps the tables and the store consistent. */
  lemma InvKept(db: Db, op: Op, purge: int)
    requires Inv(db) && Fresh(db, op)
    ensures Inv(Apply(db, op, purge))
  {
    match op {
      case Upload(doc, uuid) => InvUpload(db, doc, uuid);
      case ClientPut(doc, content) => InvExtends(db, db.(objects := db.objects[OriginalKey(doc) := content]));
      case AddPart(doc, locator, content, uuid, part) => InvPart(db, doc, locator, content, uuid, part);
      case AddSourcePart(doc, part) => InvSourcePart(db, doc, part);
      case MakeThumb(source, content, uuid) => InvThumb(db, source, content, uuid);
      case SetThumb(part, thumb) => InvSetThumb(db, part, thumb);
      case Deletion(ids, now) => InvDelete(db, ids, now, purge);
      case Sweep(now, failing) => InvPurge(db, now, failing);
    }
    hide *;
  }

  // ------------------------------------------------------------- whole runs

  ghost predicate History(ops: seq<Op>, trace: seq<Db>, purge: int) {
    && |trace| == |ops| + 1 && trace[0] == Db(map[], map[], map[], map[])
    && forall i :: 0 <= i < |ops| ==> Fresh(trace[i], ops[i]) && trace[i + 1] == Apply(trace[i], ops[i], purge)
  }

  /** Every reachable state is consistent: one row per object key, one part per (document,
      locator), every recorded blob in its own document's folder, and an object behind every
      unmarked server-made row. */
  lemma {:induction false} HistoryInv(ops: seq<Op>, trace: seq<Db>, purge: int, i: nat)
    requires History(ops, trace, purge) && i <= |ops|
    ensures Inv(trace[i])
  {
    if i > 0 {
      HistoryInv(ops, trace, purge, i - 1);
      InvKept(trace[i - 1], ops[i - 1], purge);
      hide Apply, Inv, Fresh;
    } else {
      EmptyInv();
    }
  }

  lemma EmptyInv()
    ensures Inv(Db(map[], map[], map[], map[]))
  {}

  /** A deletion marks exactly the blobs recorded for the live documents it names, all of them
      unmarked until then, with one deadline; it marks those documents and nothing else. */
  lemma DeleteMarksExactly(db: Db, ids: set<string>, now: int, purge: int)
    requires Inv(db)
    ensures var db' := Delete(db, ids, now, purge);
            && db'.media.Keys == db.media.Keys && db'.docs.Keys == db.docs.Keys
            && db'.parts == db.parts && db'.objects == db.objects
            && (forall m :: m in db.media ==>
                  if exists d :: d in ids && LiveDoc(db, d) && Records(db, d, m)
                  then db.media[m].mark.None? && db'.media[m] == db.media[m].(mark := Some(Mark(now, now + purge)))
                  else db'.media[m] == db.media[m])
            && (forall d :: d in db.docs ==>
                  db'.docs[d] == if d in ids && LiveDoc(db, d) then db.docs[d].(mark := Some(Mark(now, now + purge)))
                                 else db.docs[d])
  {
    forall d, m | LiveDoc(db, d) && Records(db, d, m)
      ensures m in db.media && db.media[m].mark.None?
    {
      RecordedOwned(db, d, m);
    }
    hide Inv, Records, LiveDoc;
  }

  /** Which those blobs are: the originals of the live documents named, the blobs of their parts
      and their parts' thumbnails. */
  lemma DeletionReaches(db: Db, ids: set<string>, now: int, purge: int)
    requires Inv(db)
    ensures var db' := Delete(db, ids, now, purge);
            var live := set d | d in ids && d in db.docs && db.docs[d].mark.None?;
            var mark := Some(Mark(now, now + purge));
            && (forall d | d in live ::
                  db.docs[d].media in db'.media && db'.media[db.docs[d].media].mark == mark)
            && (forall p | p in db.parts && db.parts[p].doc in live ::
                  && (db.parts[p].media.Some? ==> db.parts[p].media.value in db'.media
                                                  && db'.media[db.parts[p].media.value].mark == mark)
                  && (db.parts[p].thumb.Some? ==> db.parts[p].thumb.value in db'.media
                                                  && db'.media[db.parts[p].thumb.value].mark == mark))
            && (forall m | m in db.media && db'.media[m] != db.media[m] ::
                  || (exists d | d in live :: db.docs[d].media == m)
                  || exists p | p in db.parts && db.parts[p].doc in live ::
                       db.parts[p].media == Some(m) || db.parts[p].thumb == Some(m))
  {
    hide Inv, Delete, Records;
    DeleteSameRows(db, ids, now, purge);
    var live := set d | d in ids && d in db.docs && db.docs[d].mark.None?;
    forall d | d in live
      ensures db.docs[d].media in db.media
           && Delete(db, ids, now, purge).media[db.docs[d].media].mark == Some(Mark(now, now + purge))
    {
      RecordedNow(db, d, db.docs[d].media);
      DeletionMarks(db, ids, now, purge, d, db.docs[d].media);
    }
    forall p, m | p in db.parts && db.parts[p].doc in live && (db.parts[p].media == Some(m) || db.parts[p].thumb == Some(m))
      ensures m in db.media && Delete(db, ids, now, purge).media[m].mark == Some(Mark(now, now + purge))
    {
      RecordedNow(db, db.parts[p].doc, m);
      DeletionMarks(db, ids, now, purge, db.parts[p].doc, m);
    }
    forall m | m in db.media && Delete(db, ids, now, purge).media[m] != db.media[m]
      ensures (exists d | d in live :: db.docs[d].media == m)
           || exists p | p in db.parts && db.parts[p].doc in live ::
                db.parts[p].media == Some(m) || db.parts[p].thumb == Some(m)
    {
      DeletionMarksOnly(db, ids, now, purge, m);
    }
  }

  lemma DeleteSameRows(db: Db, ids: set<string>, now: int, purge: int)
    ensures Delete(db, ids, now, purge).media.Keys == db.media.Keys
  {}

  lemma RecordedNow(db: Db, d: string, m: nat)
    requires (d in db.docs && db.docs[d].media == m)
          || exists p | p in db.parts && db.parts[p].doc == d :: db.parts[p].media == Some(m) || db.parts[p].thumb == Some(m)
    ensures Records(db, d, m)
  {}

  lemma DeletionMarks(db: Db, ids: set<string>, now: int, purge: int, d: string, m: nat)
    requires Inv(db) && d in ids && LiveDoc(db, d) && Records(db, d, m)
    ensures m in db.media && m in Delete(db, ids, now, purge).media
         && Delete(db, ids, now, purge).media[m].mark == Some(Mark(now, now + purge))
  {
    RecordedOwned(db, d, m);
    DeleteMarksExactly(db, ids, now, purge);
    hide Inv, Delete, Records;
  }

  lemma DeletionMarksOnly(db: Db, ids: set<string>, now: int, purge: int, m: nat)
    requires Inv(db) && m in db.media && m in Delete(db, ids, now, purge).media
    requires Delete(db, ids, now, purge).media[m] != db.media[m]
    ensures var live := set d | d in ids && d in db.docs && db.docs[d].mark.None?;
            || (exists d | d in live :: db.docs[d].media == m)
            || exists p | p in db.parts && db.parts[p].doc in live ::
                 db.parts[p].media == Some(m) || db.parts[p].thumb == Some(m)
  {
    DeleteMarksExactly(db, ids, now, purge);
    hide Inv, Delete;
    var d :| d in ids && LiveDoc(db, d) && Records(db, d, m);
    assert d in set d | d in ids && d in db.docs && db.docs[d].mark.None?;
  }

  /** Nothing already there changes, except that parts may gain a thumbnail and rows a size. */
  ghost predicate Kept(db: Db, db': Db) {
    && (forall m :: m in db.media ==>
          m in db'.media && db'.media[m].key == db.media[m].key && db'.media[m].mark == db.media[m].mark)
    && (forall d :: d in db.docs ==> d in db'.docs && db'.docs[d] == db.docs[d])
    && (forall p :: p in db.parts ==>
          && p in db'.parts && db'.parts[p].doc == db.parts[p].doc && db'.parts[p].media == db.parts[p].media
          && (db.parts[p].thumb.Some? ==> db'.parts[p].thumb == db.parts[p].thumb))
    && db.objects.Keys <= db'.objects.Keys
  }

  lemma UpsertKeeps(db: Db, key: string, size: Option<nat>, uuid: nat)
    requires UniqueKeys(db.media) && uuid !in db.media
    ensures Kept(db, db.(media := Upserted(db.media, key, size, uuid).0))
  {
    UpsertUnique(db.media, key, size, uuid);
    hide Upserted;
  }

  lemma KeptBoth(a: Db, b: Db, c: Db)
    requires Kept(a, b) && Kept(b, c)
    ensures Kept(a, c)
  {}

  lemma ThumbKeeps(db: Db, source: nat, content: string, uuid: nat)
    requires UniqueKeys(db.media) && uuid !in db.media
    ensures Kept(db, EnsureThumb(db, source, content, uuid).0)
  {
    if source in db.media {
      var key := ThumbKey(db.media[source].key);
      UpsertKeeps(db, key, Some(|content|), uuid);
      var media := Upserted(db.media, key, Some(|content|), uuid).0;
      KeptBoth(db, db.(media := media), db.(media := media, objects := db.objects[key := content]));
    }
    hide Upserted, KeyRow, ThumbKey;
  }

  lemma SetThumbKeeps(db: Db, part: nat, thumb: nat)
    ensures Kept(db, SetPartThumb(db, part, thumb))
  {}

  lemma PartKeeps(db: Db, doc: string, locator: string, content: string, uuid: nat, part: nat)
    requires UniqueKeys(db.media) && uuid !in db.media && part !in db.parts
    ensures Kept(db, EnsurePart(db, doc, locator, content, uuid, part))
  {
    var key := PartKey(doc, locator);
    UpsertKeeps(db, key, Some(|content|), uuid);
    hide Upserted, PartAt, PartKey;
  }

  lemma UploadKeeps(db: Db, doc: string, uuid: nat)
    requires UniqueKeys(db.media) && uuid !in db.media && doc !in db.docs
    ensures Kept(db, RequestUpload(db, doc, uuid))
  {
    UpsertKeeps(db, OriginalKey(doc), None, uuid);
    hide Upserted;
  }

  lemma ObjectKeeps(db: Db, key: string, content: string)
    ensures Kept(db, db.(objects := db.objects[key := content]))
  {}

  lemma SourcePartKeeps(db: Db, doc: string, part: nat)
    requires part !in db.parts
    ensures Kept(db, EnsureSourcePart(db, doc, part))
  {}

  /** Everything but a deletion or a sweep only adds. */
  lemma AdditiveKeeps(db: Db, op: Op, purge: int)
    requires Inv(db) && Fresh(db, op) && !op.Deletion? && !op.Sweep?
    ensures Kept(db, Apply(db, op, purge))
  {
    hide Upserted, EnsurePart, EnsureThumb, EnsureSourcePart, RequestUpload, SetPartThumb, PartAt, Kept, UniqueKeys;
    match op {
      case Upload(doc, uuid) => UploadKeeps(db, doc, uuid);
      case ClientPut(doc, content) => ObjectKeeps(db, OriginalKey(doc), content);
      case AddPart(doc, locator, content, uuid, part) => PartKeeps(db, doc, locator, content, uuid, part);
      case AddSourcePart(doc, part) => SourcePartKeeps(db, doc, part);
      case MakeThumb(source, content, uuid) => ThumbKeeps(db, source, content, uuid);
      case SetThumb(part, thumb) => SetThumbKeeps(db, part, thumb);
    }
  }

  /** One operation never rewrites a row's key or moves its mark, and only a sweep past the
      deadline removes a row, its object gone; a sweep removes every such row whose object
      could be deleted. */
  lemma StepKeepsRows(db: Db, op: Op, purge: int)
    requires Inv(db) && Fresh(db, op)
    ensures var db' := Apply(db, op, purge);
            && (forall m :: m in db.media && m in db'.media ==>
                  && db'.media[m].key == db.media[m].key
                  && (db.media[m].mark.Some? ==> db'.media[m].mark == db.media[m].mark))
            && (forall m :: m in db.media ==>
                  (m !in db'.media <==> op.Sweep? && Due(db.media, m, op.now) && db.media[m].key !in op.failing))
            && (forall m :: m in db.media && m !in db'.media ==> db.media[m].key !in db'.objects)
  {
    if op.Deletion? {
      DeleteKeepsRows(db, op.ids, op.now, purge);
    } else if op.Sweep? {
      PurgeKeeps(db, op.now, op.failing);
    } else {
      AdditiveKeeps(db, op, purge);
      hide Apply;
    }
    hide Inv, Purge, Delete, Due, Fresh;
  }

  /** One operation takes nothing from a document that is live before and after it. */
  lemma StepKeepsLive(db: Db, op: Op, purge: int, doc: string, m: nat)
    requires Inv(db) && Fresh(db, op)
    requires LiveDoc(db, doc) && LiveDoc(Apply(db, op, purge), doc) && Records(db, doc, m)
    ensures var db' := Apply(db, op, purge);
            && Records(db', doc, m) && m in db.media && m in db'.media && db'.media[m].key == db.media[m].key
            && db'.media[m].mark.None?
            && (db.media[m].key in db.objects ==> db'.media[m].key in db'.objects)
  {
    hide Inv, Purge, Delete, Fresh, Kept, Records, Stored;
    var db' := Apply(db, op, purge);
    LiveUnmarked(db, doc, m);
    InvKept(db, op, purge);
    if op.Deletion? {
      InvStored(db);
      DeleteKeepsRecords(db, op.ids, op.now, purge, doc, m);
    } else if op.Sweep? {
      SweepKeepsRecords(db, op.now, op.failing, doc, m);
    } else {
      AdditiveKeeps(db, op, purge);
      KeptRecords(db, db', doc, m);
    }
    LiveUnmarked(db', doc, m);
  }

  lemma InvStored(db: Db)
    requires Inv(db)
    ensures Stored(db)
  {}

  lemma DeleteKeepsRecords(db: Db, ids: set<string>, now: int, purge: int, doc: string, m: nat)
    requires Stored(db) && Records(db, doc, m) && m in db.media
    ensures var db' := Delete(db, ids, now, purge);
            && Records(db', doc, m) && m in db'.media && db'.media[m].key == db.media[m].key
            && db'.objects == db.objects
  {
    DeleteKeepsRows(db, ids, now, purge);
    hide Stored, LiveDoc;
  }

  lemma SweepKeepsRecords(db: Db, now: int, failing: set<string>, doc: string, m: nat)
    requires Inv(db) && LiveDoc(db, doc) && Records(db, doc, m) && m in db.media && db.media[m].mark.None?
    ensures var db' := Purge(db, now, failing);
            && Records(db', doc, m) && m in db'.media && db'.media[m].key == db.media[m].key
            && (db.media[m].key in db.objects ==> db'.media[m].key in db'.objects)
  {
    PurgeKeeps(db, now, failing);
    SweepKeepsLive(db, now, failing, doc);
    hide Inv, Purge;
  }

  lemma KeptRecords(db: Db, db': Db, doc: string, m: nat)
    requires Kept(db, db') && Records(db, doc, m) && m in db.media
    ensures Records(db', doc, m) && m in db'.media && db'.media[m].key == db.media[m].key
    ensures db.media[m].key in db.objects ==> db'.media[m].key in db'.objects
  {}

  lemma LiveUnmarked(db: Db, doc: string, m: nat)
    requires Inv(db) && LiveDoc(db, doc) && Records(db, doc, m)
    ensures m in db.media && db.media[m].mark.None? && Owns(doc, db.media[m].key)
  {
    RecordedOwned(db, doc, m);
    hide Owns, Records;
  }

  /** Rows a live document records are not swept, so its own rows stay. */
  lemma SweepKeepsLive(db: Db, now: int, failing: set<string>, doc: string)
    requires Inv(db) && LiveDoc(db, doc)
    ensures var db' := Purge(db, now, failing);
            && doc in db'.docs && db'.docs[doc] == db.docs[doc]
            && forall p :: p in db.parts && db.parts[p].doc == doc ==> p in db'.parts && db'.parts[p] == db.parts[p]
  {
    forall m | Records(db, doc, m) ensures m !in Swept(db.media, now, failing) { RecordedOwned(db, doc, m); }
    assert Records(db, doc, db.docs[doc].media);
    forall p | p in db.parts && db.parts[p].doc == doc
      ensures db.parts[p].media.Some? && Records(db, doc, db.parts[p].media.value)
      ensures db.parts[p].thumb.Some? ==> Records(db, doc, db.parts[p].thumb.value)
    {}
    hide Inv, Records;
  }

  /** Over any stretch of a history: a row that stays keeps its key and, once marked, its mark
      and deadline; a row that goes was removed by a sweep past its deadline that had first
      deleted its object. */
  lemma {:induction false} RowLifecycle(ops: seq<Op>, trace: seq<Db>, purge: int, i: nat, j: nat, m: nat)
    requires History(ops, trace, purge) && i <= j <= |ops| && m in trace[i].media
    ensures (forall k :: i <= k <= j ==> m in trace[k].media) ==>
              && trace[j].media[m].key == trace[i].media[m].key
              && (trace[i].media[m].mark.Some? ==> trace[j].media[m].mark == trace[i].media[m].mark)
    ensures m !in trace[j].media ==>
              exists k :: i <= k < j && ops[k].Sweep? && m in trace[k].media
                          && Due(trace[k].media, m, ops[k].now) && trace[k].media[m].key !in trace[k + 1].objects
  {
    hide Apply, Inv, Fresh, Due;
    if i < j {
      RowLifecycle(ops, trace, purge, i, j - 1, m);
      HistoryInv(ops, trace, purge, j - 1);
      if m in trace[j - 1].media { StepKeepsRows(trace[j - 1], ops[j - 1], purge); }
    }
  }

  /** Over any stretch in which a document is live throughout, every blob recorded for it
      stays recorded, its row stays, unmarked and under the same key, and so does its object. */
  lemma {:induction false} LiveDocumentLosesNothing(ops: seq<Op>, trace: seq<Db>, purge: int, i: nat, j: nat,
                                                    doc: string, m: nat)
    requires History(ops, trace, purge) && i <= j <= |ops|
    requires forall k :: i <= k <= j ==> LiveDoc(trace[k], doc)
    requires Records(trace[i], doc, m)
    ensures m in trace[i].media && m in trace[j].media && Records(trace[j], doc, m)
    ensures trace[j].media[m].key == trace[i].media[m].key && trace[j].media[m].mark.None?
    ensures trace[i].media[m].key in trace[i].objects ==> trace[j].media[m].key in trace[j].objects
  {
    hide Apply, Inv, Fresh, Records, LiveDoc;
    HistoryInv(ops, trace, purge, i);
    assert LiveDoc(trace[i], doc);
    LiveUnmarked(trace[i], doc, m);
    if i < j {
      LiveDocumentLosesNothing(ops, trace, purge, i, j - 1, doc, m);
      HistoryInv(ops, trace, purge, j - 1);
      assert LiveDoc(trace[j - 1], doc) && LiveDoc(trace[j], doc);
      StepKeepsLive(trace[j - 1], ops[j - 1], purge, doc, m);
    }
  }

  // ------------------------------------------------ recording after deletion

  /** Every blob recorded for the document awaits its purge. */
  ghost predicate AllMarked(db: Db, doc: string) {
    forall m :: Records(db, doc, m) ==> m in db.media && db.media[m].mark.Some?
  }

  /** Neither `ensure_part` nor `set_part_thumb` looks at the document's deletion: the operation
      records for `doc` a blob that is not marked. */
  ghost predicate RecordsLate(db: Db, op: Op, doc: string) {
    match op
    case AddPart(d, locator, _, _, _) =>
      d == doc && PartAt(db.parts, doc, locator).None?
      && var row := KeyRow(db.media, PartKey(doc, locator)); !(row.Some? && db.media[row.value].mark.Some?)
    case SetThumb(part, thumb) =>
      part in db.parts && db.parts[part].doc == doc && db.parts[part].thumb.None? && Unmarked(db.media, thumb)
    case _ => false
  }

  /** A deletion leaves all blobs of the documents it deletes marked. */
  lemma DeletedAllMarked(db: Db, ids: set<string>, now: int, purge: int, doc: string)
    requires Inv(db) && doc in ids && LiveDoc(db, doc)
    ensures AllMarked(Delete(db, ids, now, purge), doc)
  {
    var db' := Delete(db, ids, now, purge);
    forall m | Records(db', doc, m) ensures m in db'.media && db'.media[m].mark.Some? {
      assert Records(db, doc, m);
      RecordedOwned(db, doc, m);
    }
  }

  /** What a new part does to the blobs recorded for its document. */
  lemma PartRecords(db: Db, doc: string, locator: string, content: string, uuid: nat, part: nat)
    requires Inv(db) && Fresh(db, AddPart(doc, locator, content, uuid, part))
    requires doc in db.docs && PartAt(db.parts, doc, locator).None?
    ensures var db' := EnsurePart(db, doc, locator, content, uuid, part);
            var (media, m) := Upserted(db.media, PartKey(doc, locator), Some(|content|), uuid);
            db'.media == media && db'.docs == db.docs && db'.parts == db.parts[part := Part(doc, locator, Some(m), None)]
  {
    hide Upserted, PartKey, Inv, PartAt;
  }

  lemma AddPartMarkedIff(db: Db, doc: string, locator: string, content: string, uuid: nat, part: nat)
    requires Inv(db) && Fresh(db, AddPart(doc, locator, content, uuid, part)) && doc in db.docs && AllMarked(db, doc)
    ensures AllMarked(EnsurePart(db, doc, locator, content, uuid, part), doc)
            <==> !RecordsLate(db, AddPart(doc, locator, content, uuid, part), doc)
  {
    InvUnique(db);
    assert uuid !in db.media && part !in db.parts;
    hide Inv, PartKey, Upserted, KeyRow, EnsurePart, PartAt, AllMarked, Fresh, Homed, UniqueKeys;
    if PartAt(db.parts, doc, locator).None? {
      PartRecords(db, doc, locator, content, uuid, part);
      UpsertMark(db.media, PartKey(doc, locator), Some(|content|), uuid);
      var (media, n) := Upserted(db.media, PartKey(doc, locator), Some(|content|), uuid);
      NewPartMarkedIff(db, doc, locator, media, n, part);
      AllMarkedOf(EnsurePart(db, doc, locator, content, uuid, part),
                  db.(media := media, parts := db.parts[part := Part(doc, locator, Some(n), None)]), doc);
    } else {
      FoundIsHome(db, doc, locator);
      FoundIsKept(db, doc, locator, content, uuid, part);
    }
  }

  /** Object contents do not matter. */
  lemma AllMarkedOf(a: Db, b: Db, doc: string)
    requires a.media == b.media && a.docs == b.docs && a.parts == b.parts
    ensures AllMarked(a, doc) == AllMarked(b, doc)
  {
    assert forall m :: Records(a, doc, m) == Records(b, doc, m);
    hide Records;
  }

  lemma FoundIsKept(db: Db, doc: string, locator: string, content: string, uuid: nat, part: nat)
    requires HasPart(db.parts, PartAt(db.parts, doc, locator))
    ensures EnsurePart(db, doc, locator, content, uuid, part) == db
  {
    hide PartAt;
  }

  lemma NewPartMarkedIff(db: Db, doc: string, locator: string, media: map<nat, Media>, n: nat, part: nat)
    requires AllMarked(db, doc) && part !in db.parts && n in media
    requires forall m :: m in db.media ==> m in media && media[m].mark == db.media[m].mark
    ensures AllMarked(db.(media := media, parts := db.parts[part := Part(doc, locator, Some(n), None)]), doc)
            <==> media[n].mark.Some?
  {
    var db' := db.(media := media, parts := db.parts[part := Part(doc, locator, Some(n), None)]);
    assert Records(db', doc, n) by { assert db'.parts[part].doc == doc && db'.parts[part].media == Some(n); }
    forall m | Records(db', doc, m) ensures m == n || Records(db, doc, m) {}
    hide Records;
  }

  lemma UpsertMark(media: map<nat, Media>, key: string, size: Option<nat>, uuid: nat)
    requires UniqueKeys(media) && uuid !in media
    ensures var (media', m) := Upserted(media, key, size, uuid);
            && m in media' && (forall n :: n in media ==> n in media' && media'[n].mark == media[n].mark)
            && (media'[m].mark.Some? <==> KeyRow(media, key).Some? && media[KeyRow(media, key).value].mark.Some?)
  {}

  lemma FoundIsHome(db: Db, doc: string, locator: string)
    requires Inv(db) && PartAt(db.parts, doc, locator).Some?
    ensures HasPart(db.parts, PartAt(db.parts, doc, locator))
  {}

  lemma SetThumbMarkedIff(db: Db, part: nat, thumb: nat, doc: string)
    requires AllMarked(db, doc)
    ensures AllMarked(SetPartThumb(db, part, thumb), doc) <==> !RecordsLate(db, SetThumb(part, thumb), doc)
  {
    var db' := SetPartThumb(db, part, thumb);
    if RecordsLate(db, SetThumb(part, thumb), doc) {
      assert db'.parts[part].thumb == Some(thumb);
      assert Records(db', doc, thumb);
    } else {
      forall m | Records(db', doc, m) ensures m in db'.media && db'.media[m].mark.Some? {
        if !Records(db, doc, m) { assert m == thumb; }
      }
    }
  }

  /** The other operations record nothing new for a deleted document. */
  lemma OthersRecordNothing(db: Db, op: Op, purge: int, doc: string, m: nat)
    requires Inv(db) && Fresh(db, op) && doc in db.docs && db.docs[doc].mark.Some? && !op.SetThumb?
    requires op.AddPart? ==> op.doc != doc
    requires Records(Apply(db, op, purge), doc, m)
    ensures Records(db, doc, m)
  {
    hide Owns, PartKey, OriginalKey, ThumbKey, Upserted, KeyRow, PartAt, MarksFollow, Stored, UniqueKeys, UniqueParts;
    if op.Sweep? { PurgeKeepsParts(db, op.now, op.failing); }
  }

  /** While a deleted document's blobs are all marked, one operation keeps them so exactly when
      it records none late. */
  lemma LateRecordingIff(db: Db, op: Op, purge: int, doc: string)
    requires Inv(db) && Fresh(db, op) && doc in db.docs && db.docs[doc].mark.Some? && AllMarked(db, doc)
    ensures AllMarked(Apply(db, op, purge), doc) <==> !RecordsLate(db, op, doc)
  {
    hide Inv, Purge, Delete, EnsurePart, Fresh, Records;
    if op.AddPart? && op.doc == doc {
      AddPartMarkedIff(db, doc, op.locator, op.content, op.uuid, op.part);
    } else if op.SetThumb? {
      SetThumbMarkedIff(db, op.part, op.thumb, doc);
    } else {
      var db' := Apply(db, op, purge);
      InvKept(db, op, purge);
      StepKeepsRows(db, op, purge);
      InvUnique(db');
      forall m | Records(db', doc, m) ensures m in db'.media && db'.media[m].mark.Some? {
        OthersRecordNothing(db, op, purge, doc, m);
        RecordedOwned(db', doc, m);
      }
    }
  }

  /** Over any stretch in which a document is deleted and its row not yet swept: its blobs are
      all marked throughout exactly when none was recorded late. */
  lemma {:induction false} StaysMarkedIff(ops: seq<Op>, trace: seq<Db>, purge: int, i: nat, j: nat, doc: string)
    requires History(ops, trace, purge) && i <= j <= |ops| && AllMarked(trace[i], doc)
    requires forall k :: i <= k <= j ==> doc in trace[k].docs && trace[k].docs[doc].mark.Some?
    ensures (forall k :: i <= k <= j ==> AllMarked(trace[k], doc))
            <==> forall k :: i <= k < j ==> !RecordsLate(trace[k], ops[k], doc)
  {
    hide Apply, Inv, Fresh, AllMarked, RecordsLate;
    if i < j {
      StaysMarkedIff(ops, trace, purge, i, j - 1, doc);
      HistoryInv(ops, trace, purge, j - 1);
      var before, late := AllMarked(trace[j - 1], doc), RecordsLate(trace[j - 1], ops[j - 1], doc);
      if before {
        LateRecordingIff(trace[j - 1], ops[j - 1], purge, doc);
        assert trace[j] == Apply(trace[j - 1], ops[j - 1], purge);
      }
      assert (forall k :: i <= k < j ==> !RecordsLate(trace[k], ops[k], doc))
          <==> !late && forall k :: i <= k < j - 1 ==> !RecordsLate(trace[k], ops[k], doc);
      assert (forall k :: i <= k <= j ==> AllMarked(trace[k], doc))
          <==> AllMarked(trace[j], doc) && forall k :: i <= k <= j - 1 ==> AllMarked(trace[k], doc);
    }
  }

  /** A blob in the folder of a document that is deleted (or gone), and not marked, is kept for
      ever: no deletion marks it any more, so no sweep removes it. */
  lemma UnmarkedStays(db: Db, op: Op, purge: int, doc: string, m: nat)
    requires Inv(db) && Fresh(db, op) && !LiveDoc(db, doc)
    requires m in db.media && db.media[m].mark.None? && Owns(doc, db.media[m].key)
    ensures var db' := Apply(db, op, purge);
            && !LiveDoc(db', doc) && m in db'.media && db'.media[m].mark.None?
            && db'.media[m].key == db.media[m].key
  {
    hide Owns, Inv, Records;
    InvUnique(db);
    if op.Deletion? {
      forall d | LiveDoc(db, d) && Records(db, d, m) ensures false {
        RecordedOwned(db, d, m);
        OwnerUnique(d, doc, db.media[m].key);
      }
      hide LiveDoc;
    } else if op.Sweep? {
      PurgeKeeps(db, op.now, op.failing);
      hide Purge;
    } else {
      AdditiveKeeps(db, op, purge);
      NothingRevived(db, op, purge, doc, m);
      hide Apply, Fresh;
    }
  }

  lemma InvUnique(db: Db)
    requires Inv(db)
    ensures UniqueKeys(db.media) && UniqueParts(db.parts) && Homed(db)
  {}

  lemma NothingRevived(db: Db, op: Op, purge: int, doc: string, m: nat)
    requires Fresh(db, op) && !LiveDoc(db, doc) && m in db.media && Owns(doc, db.media[m].key)
    requires !op.Deletion? && !op.Sweep?
    ensures !LiveDoc(Apply(db, op, purge), doc)
  {
    hide Owns, Upserted, PartAt, PartKey, KeyRow, OriginalKey, ThumbKey;
  }

  lemma {:induction false} UnmarkedNeverPurged(ops: seq<Op>, trace: seq<Db>, purge: int, i: nat, j: nat, doc: string, m: nat)
    requires History(ops, trace, purge) && i <= j <= |ops| && !LiveDoc(trace[i], doc)
    requires m in trace[i].media && trace[i].media[m].mark.None? && Owns(doc, trace[i].media[m].key)
    ensures !LiveDoc(trace[j], doc) && m in trace[j].media && trace[j].media[m].mark.None?
    ensures trace[j].media[m].key == trace[i].media[m].key
  {
    hide Apply, Inv, Fresh, Owns, LiveDoc;
    if i < j {
      UnmarkedNeverPurged(ops, trace, purge, i, j - 1, doc, m);
      HistoryInv(ops, trace, purge, j - 1);
      UnmarkedStays(trace[j - 1], ops[j - 1], purge, doc, m);
    }
  }

  /** A late recording escapes every purge: in any history, what it records for the deleted
      document stays in the tables, unmarked, for ever after. */
  lemma LatePartEscapesPurge(ops: seq<Op>, trace: seq<Db>, purge: int, i: nat, j: nat, doc: string)
    requires History(ops, trace, purge) && i < j <= |ops|
    requires doc in trace[i].docs && trace[i].docs[doc].mark.Some? && AllMarked(trace[i], doc)
    requires RecordsLate(trace[i], ops[i], doc)
    ensures exists m :: Records(trace[i + 1], doc, m) && m in trace[j].media && trace[j].media[m].mark.None?
  {
    hide Inv, Fresh, Owns, Records, RecordsLate, EnsurePart;
    HistoryInv(ops, trace, purge, i);
    HistoryInv(ops, trace, purge, i + 1);
    LateRecordingIff(trace[i], ops[i], purge, doc);
    LateStaysDeleted(trace[i], ops[i], purge, doc);
    hide Apply, LiveDoc;
    var m :| Records(trace[i + 1], doc, m) && !(m in trace[i + 1].media && trace[i + 1].media[m].mark.Some?);
    InvUnique(trace[i + 1]);
    RecordedOwned(trace[i + 1], doc, m);
    UnmarkedNeverPurged(ops, trace, purge, i + 1, j, doc, m);
  }

  lemma LateStaysDeleted(db: Db, op: Op, purge: int, doc: string)
    requires RecordsLate(db, op, doc) && doc in db.docs && db.docs[doc].mark.Some?
    ensures !LiveDoc(Apply(db, op, purge), doc)
  {
    hide Upserted, PartAt, PartKey, KeyRow;
  }
}
