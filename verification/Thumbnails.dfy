/** Thumbnail pointers as strings: what the extension mints, and which strings it will honour. */
module ThumbnailPointer {
  import opened Wrappers
  import opened Text

  type Key = string

  const KEY_PREFIX := "thumbnails/"

  predicate IsHex(c: char) {
    '0' <= c <= '9' || 'a' <= c <= 'f' || 'A' <= c <= 'F'
  }

  /** Hexadecimal groups of 8, 4, 4, 4 and 12, in either case. */
  predicate IsUuid(id: string) {
    && |id| == 36
    && forall i :: 0 <= i < 36 ==> if i == 8 || i == 13 || i == 18 || i == 23 then id[i] == '-' else IsHex(id[i])
  }

  predicate IsMintable(key: Key) {
    KEY_PREFIX <= key && IsUuid(key[|KEY_PREFIX|..])
  }

  function Pointer(bucket: string, key: Key): string {
    "s3://" + bucket + "/" + key
  }

  function AfterSlashes(s: string): string {
    if s != [] && s[0] == '/' then AfterSlashes(s[1..]) else s
  }

  /** Everything after the first slash: the segments but the first, joined again. */
  function AfterFirstSegment(s: string): string {
    var i := IndexOf(s, '/');
    if i == |s| then "" else s[i + 1..]
  }

  /** The key half of a pointer. `pathname` is the URL parser, for pointers of the legacy form. */
  function KeyPart(pointer: string, pathname: string -> Option<string>): Option<Key> {
    if "s3://" <= pointer then
      var rest := pointer[5..];
      var slash := IndexOf(rest, '/');
      if slash == |rest| then None else Some(rest[slash + 1..])
    else
      match pathname(pointer)
      case None => None
      case Some(path) => Some(AfterFirstSegment(AfterSlashes(path)))
  }

  function Resolve(pointer: string, pathname: string -> Option<string>): (r: Option<Key>)
    ensures r.Some? ==> IsMintable(r.value)
  {
    var key := KeyPart(pointer, pathname);
    if key.Some? && IsMintable(key.value) then key else None
  }

  lemma FirstSlash(s: string, key: Key)
    ensures IndexOf(s, '/') < |s| && s[IndexOf(s, '/') + 1..] == key <==>
      exists segment: string :: Free(segment, '/') && s == segment + "/" + key
  {
    var i := IndexOf(s, '/');
    if i < |s| && s[i + 1..] == key {
      assert Free(s[..i], '/') && s == s[..i] + "/" + key;
    }
    forall segment: string | Free(segment, '/') && s == segment + "/" + key
      ensures i == |segment| && s[i + 1..] == key
    {
      assert s[|segment|] == '/';
      assert forall j :: 0 <= j < |segment| ==> s[j] == segment[j];
    }
  }

  /** A pointer resolves to a key exactly when the key follows its bucket and has the minted shape. */
  lemma ResolveIff(pointer: string, key: Key, pathname: string -> Option<string>)
    requires "s3://" <= pointer
    ensures Resolve(pointer, pathname) == Some(key) <==>
      && (exists bucket: string :: Free(bucket, '/') && pointer == "s3://" + (bucket + "/" + key))
      && |key| == 47 && key[..11] == "thumbnails/"
      && (forall i :: 11 <= i < 47 ==>
           if i == 19 || i == 24 || i == 29 || i == 34 then key[i] == '-'
           else '0' <= key[i] <= '9' || 'a' <= key[i] <= 'f' || 'A' <= key[i] <= 'F')
  {
    var rest := pointer[5..];
    FirstSlash(rest, key);
    MintedShape(key);
    assert forall bucket: string :: rest == bucket + "/" + key <==> pointer == "s3://" + (bucket + "/" + key);
  }

  lemma MintedShape(key: Key)
    ensures IsMintable(key) <==>
      && |key| == 47 && key[..11] == "thumbnails/"
      && (forall i :: 11 <= i < 47 ==>
           if i == 19 || i == 24 || i == 29 || i == 34 then key[i] == '-'
           else '0' <= key[i] <= '9' || 'a' <= key[i] <= 'f' || 'A' <= key[i] <= 'F')
  {
    if |key| == 47 {
      assert forall i :: 11 <= i < 47 ==> key[i] == key[11..][i - 11];
      assert forall i :: 0 <= i < 36 ==> key[11..][i] == key[i + 11];
    }
  }

  /** A legacy pointer does when the key follows the first segment of the path that the parser finds. */
  lemma ResolveLegacyIff(pointer: string, key: Key, pathname: string -> Option<string>)
    requires !("s3://" <= pointer)
    ensures Resolve(pointer, pathname) == Some(key) <==>
      && IsMintable(key) && pathname(pointer).Some?
      && exists slashes: string, bucket: string ::
        && (forall i :: 0 <= i < |slashes| ==> slashes[i] == '/')
        && bucket != "" && Free(bucket, '/') && pathname(pointer).value == slashes + (bucket + "/" + key)
  {
    if pathname(pointer).Some? {
      var path := pathname(pointer).value;
      var slashes := LeadingSlashes(path);
      var rest := AfterSlashes(path);
      FirstSlash(rest, key);
      if Resolve(pointer, pathname) == Some(key) {
        var bucket: string :| Free(bucket, '/') && rest == bucket + "/" + key;
        assert (bucket + "/" + key)[0] == if bucket == "" then '/' else bucket[0];
        assert path == slashes + (bucket + "/" + key);
      }
      forall slashes', bucket: string |
        (forall i :: 0 <= i < |slashes'| ==> slashes'[i] == '/')
        && bucket != "" && Free(bucket, '/') && path == slashes' + (bucket + "/" + key)
        ensures rest == bucket + "/" + key
      {
        AfterTheseSlashes(slashes', bucket + "/" + key);
      }
    }
  }

  lemma {:induction false} LeadingSlashes(s: string) returns (slashes: string)
    ensures forall i :: 0 <= i < |slashes| ==> slashes[i] == '/'
    ensures s == slashes + AfterSlashes(s)
    ensures AfterSlashes(s) != "" ==> AfterSlashes(s)[0] != '/'
  {
    if s != "" && s[0] == '/' {
      slashes := LeadingSlashes(s[1..]);
      slashes := "/" + slashes;
    } else {
      slashes := "";
    }
  }

  lemma {:induction false} AfterTheseSlashes(slashes: string, rest: string)
    requires (forall i :: 0 <= i < |slashes| ==> slashes[i] == '/') && rest != "" && rest[0] != '/'
    ensures AfterSlashes(slashes + rest) == rest
  {
    if slashes == "" {
      assert slashes + rest == rest;
    } else {
      AfterTheseSlashes(slashes[1..], rest);
      assert (slashes + rest)[1..] == slashes[1..] + rest;
    }
  }

  /**
   A minted pointer resolves to its own key exactly when the bucket name holds no slash; with one,
   it resolves to nothing, never to another key.
   */
  lemma PointerRoundTrip(bucket: string, key: Key, pathname: string -> Option<string>)
    requires IsMintable(key)
    ensures Resolve(Pointer(bucket, key), pathname) == Some(key) <==> '/' !in bucket
    ensures '/' in bucket ==> Resolve(Pointer(bucket, key), pathname) == None
  {
    var pointer := Pointer(bucket, key);
    assert pointer == "s3://" + (bucket + "/" + key);
    var rest := bucket + "/" + key;
    assert pointer[5..] == rest;
    var slash := IndexOf(rest, '/');
    assert rest[|bucket|] == '/';
    if '/' in bucket {
      var b :| 0 <= b < |bucket| && bucket[b] == '/';
      assert rest[b] == '/' && slash < |bucket|;
      var tail := rest[slash + 1..];
      assert |tail| > |key| == 47;
      assert IsMintable(tail) ==> |tail| == 47;
    } else {
      assert forall i :: 0 <= i < |bucket| ==> rest[i] == bucket[i] && bucket[i] in bucket;
      assert slash == |bucket|;
      assert rest[slash + 1..] == key;
    }
  }
}

/**
 Which row points at which bucket object. The state holds the rows, the bucket, and what the
 handlers have in flight; an event is one handler turn or one action of the file system around
 them. A run is any sequence of enabled events.
 */
module ThumbnailStore {
  import opened Wrappers
  import opened ThumbnailPointer

  type Uuid = string

  /** A row's thumbnail: absent, or a string with the key it resolves to and whether it is inline data. */
  datatype Thumb = NoThumb | Thumb(key: Option<Key>, inline: bool)

  /** Who will use a minted key that no row holds yet. */
  datatype Claim = Granted | Migrating(row: Uuid) | ForCopy(dst: Uuid)

  datatype Copy = Requested(source: Key) | Duplicated(own: Key) | Failed

  datatype State = State(
    rows: map<Uuid, Thumb>,
    bucket: set<Key>,
    minted: set<Key>,
    reserved: map<Key, Claim>,
    presigned: set<Key>,
    copies: map<Uuid, Copy>,
    doomed: set<Key>
  )

  const EMPTY := State(map[], {}, {}, map[], {}, map[], {})

  datatype Event =
    | Create(key: Key, stored: bool)                   // thumbnail.created, inline data accepted
    | Prepare(key: Key)                                // thumbnail.upload.prepare, one item
    | Attach(row: Uuid, key: Key)                      // the file system stores a granted pointer
    | PlainWrite(row: Uuid, thumb: Thumb)              // the file system stores any other string
    | Upload(key: Key)                                 // a client uses a presigned URL
    | Migrate(target: Option<Uuid>, key: Key, stored: bool)  // thumbnail.read of inline data
    | MigrationLands(key: Key)                         // its row update, some time later
    | MigrationFails(key: Key)
    | CopyRow(src: Uuid, dst: Uuid)                    // the file system copies an entry
    | Duplicate(dst: Uuid, key: Key, ok: bool)         // fs.copy.node, up to the object copy
    | CopyLands(dst: Uuid)                             // its row update
    | RemoveRow(row: Uuid)                             // the file system removes an entry
    | DeleteObject(key: Key)                           // fs.remove.node deletes the object

  function KeyOf(s: State, u: Uuid): Option<Key> {
    if u in s.rows && s.rows[u].Thumb? then s.rows[u].key else None
  }

  predicate Enabled(s: State, e: Event) {
    match e
    case Create(key, _) => key !in s.minted
    case Prepare(key) => key !in s.minted
    case Attach(_, key) => key in s.reserved && s.reserved[key].Granted?
    case PlainWrite(_, _) => true
    case Upload(key) => key in s.presigned
    case Migrate(_, key, _) => key !in s.minted
    case MigrationLands(key) => key in s.reserved && s.reserved[key].Migrating?
    case MigrationFails(key) => key in s.reserved && s.reserved[key].Migrating?
    case CopyRow(src, dst) => src in s.rows && dst !in s.rows
    case Duplicate(dst, key, ok) =>
      && key !in s.minted && dst in s.copies && s.copies[dst].Requested?
      && (ok ==> s.copies[dst].source in s.bucket)
    case CopyLands(dst) => dst in s.copies && !s.copies[dst].Requested?
    case RemoveRow(row) => row in s.rows
    case DeleteObject(key) => key in s.doomed
  }

  /**
   What the handlers rely on: pointers reach rows only through them, and a copy is dealt with
   before any row sharing its object is removed.
   */
  predicate Disciplined(s: State, e: Event) {
    match e
    case PlainWrite(_, thumb) => thumb.NoThumb? || thumb.key.None?
    case RemoveRow(row) =>
      && row !in s.copies
      && (KeyOf(s, row).Some? ==> forall d | d in s.copies :: KeyOf(s, d) != KeyOf(s, row))
    case _ => true
  }

  function PointTo(key: Key): Thumb {
    Thumb(Some(key), false)
  }

  /** An UPDATE by uuid changes nothing when the row is gone. */
  function Update(rows: map<Uuid, Thumb>, u: Uuid, t: Thumb): map<Uuid, Thumb> {
    if u in rows then rows[u := t] else rows
  }

  function Mint(s: State, key: Key): State {
    s.(minted := s.minted + {key})
  }

  function Put(s: State, key: Key, ok: bool): State {
    if ok then s.(bucket := s.bucket + {key}) else s
  }

  function Grant(s: State, key: Key): State {
    Mint(s, key).(reserved := s.reserved[key := Granted], presigned := s.presigned + {key})
  }

  function Apply(s: State, e: Event): State
    requires Enabled(s, e)
  {
    match e
    case Create(key, stored) =>
      Put(Mint(s, key), key, stored).(reserved := s.reserved[key := Granted])
    case Prepare(key) =>
      Grant(s, key)
    case Attach(row, key) =>
      s.(rows := s.rows[row := PointTo(key)], reserved := s.reserved - {key})
    case PlainWrite(row, thumb) =>
      s.(rows := s.rows[row := thumb])
    case Upload(key) =>
      Put(s, key, true)
    case Migrate(target, key, stored) =>
      var s' := Put(Mint(s, key), key, stored);
      if stored && target.Some? then s'.(reserved := s.reserved[key := Migrating(target.value)]) else s'
    case MigrationLands(key) =>
      s.(rows := Update(s.rows, s.reserved[key].row, PointTo(key)), reserved := s.reserved - {key})
    case MigrationFails(key) =>
      s.(reserved := s.reserved - {key})
    case CopyRow(src, dst) =>
      var s' := s.(rows := s.rows[dst := s.rows[src]]);
      if KeyOf(s, src).Some? then s'.(copies := s.copies[dst := Requested(KeyOf(s, src).value)]) else s'
    case Duplicate(dst, key, ok) =>
      var s' := Put(Mint(s, key), key, ok);
      if ok then s'.(copies := s.copies[dst := Duplicated(key)], reserved := s.reserved[key := ForCopy(dst)])
      else s'.(copies := s.copies[dst := Failed])
    case CopyLands(dst) =>
      if s.copies[dst].Failed? then
        s.(rows := Update(s.rows, dst, NoThumb), copies := s.copies - {dst})
      else
        var key := s.copies[dst].own;
        s.(rows := Update(s.rows, dst, PointTo(key)), copies := s.copies - {dst}, reserved := s.reserved - {key})
    case RemoveRow(row) =>
      var s' := s.(rows := s.rows - {row});
      if KeyOf(s, row).Some? then s'.(doomed := s.doomed + {KeyOf(s, row).value}) else s'
    case DeleteObject(key) =>
      s.(bucket := s.bucket - {key}, doomed := s.doomed - {key})
  }

  ghost predicate Shares(s: State, u: Uuid, v: Uuid) {
    u != v && KeyOf(s, u).Some? && KeyOf(s, u) == KeyOf(s, v)
  }

  /** Every key in play was minted, and a key waiting for its row is nobody else's. */
  ghost predicate KeysApart(s: State) {
    && s.reserved.Keys <= s.minted && s.doomed <= s.minted && s.reserved.Keys !! s.doomed
    && forall u :: u in s.rows && KeyOf(s, u).Some? ==>
      KeyOf(s, u).value in s.minted && KeyOf(s, u).value !in s.reserved && KeyOf(s, u).value !in s.doomed
  }

  /** Copies not dealt with yet are rows, and the new key made for one is kept for it. */
  ghost predicate CopiesKept(s: State) {
    && (forall d :: d in s.copies ==> d in s.rows)
    && (forall d :: d in s.copies && s.copies[d].Duplicated? ==>
      s.copies[d].own in s.reserved && s.reserved[s.copies[d].own] == ForCopy(d))
  }

  /** Two rows share an object only while one of them is a copy not dealt with yet. */
  ghost predicate SharersPending(s: State) {
    forall u, v :: u in s.rows && v in s.rows && Shares(s, u, v) ==> u in s.copies || v in s.copies
  }

  ghost predicate Inv(s: State) {
    KeysApart(s) && CopiesKept(s) && SharersPending(s)
  }

  /** What an event does to the rows and to the bucket. */
  lemma EventEffects(s: State, e: Event)
    requires Enabled(s, e)
    ensures var rows := Apply(s, e).rows;
      match e
      case Attach(row, key) => rows == s.rows[row := Thumb(Some(key), false)]
      case PlainWrite(row, thumb) => rows == s.rows[row := thumb]
      case MigrationLands(key) =>
        var row := s.reserved[key].row;
        rows == if row in s.rows then s.rows[row := Thumb(Some(key), false)] else s.rows
      case CopyRow(src, dst) => rows == s.rows[dst := s.rows[src]]
      case CopyLands(dst) =>
        if dst !in s.rows then rows == s.rows
        else if s.copies[dst].Failed? then rows == s.rows[dst := NoThumb]
        else rows == s.rows[dst := Thumb(Some(s.copies[dst].own), false)]
      case RemoveRow(row) => rows == map u | u in s.rows && u != row :: s.rows[u]
      case _ => rows == s.rows
    ensures var bucket := Apply(s, e).bucket;
      match e
      case Create(key, stored) => bucket == if stored then s.bucket + {key} else s.bucket
      case Upload(key) => bucket == s.bucket + {key}
      case Migrate(_, key, stored) => bucket == if stored then s.bucket + {key} else s.bucket
      case Duplicate(_, key, ok) => bucket == if ok then s.bucket + {key} else s.bucket
      case DeleteObject(key) => bucket == s.bucket - {key}
      case _ => bucket == s.bucket
  {
  }

  /** What an event leaves waiting, and what it settles. */
  lemma EventAwaits(s: State, e: Event)
    requires Enabled(s, e)
    ensures var t := Apply(s, e);
      match e
      case Create(key, _) => key in t.minted && t.reserved == s.reserved[key := Granted]
      case Prepare(key) => key in t.minted && t.reserved == s.reserved[key := Granted] && Enabled(t, Upload(key))
      case Attach(_, key) => t.reserved == s.reserved - {key}
      case Migrate(target, key, stored) =>
        key in t.minted && t.reserved == if stored && target.Some? then s.reserved[key := Migrating(target.value)] else s.reserved
      case MigrationLands(key) => t.reserved == s.reserved - {key}
      case MigrationFails(key) => t.reserved == s.reserved - {key}
      case CopyRow(src, dst) =>
        t.copies == if KeyOf(s, src).Some? then s.copies[dst := Requested(KeyOf(s, src).value)] else s.copies
      case Duplicate(dst, key, ok) =>
        && key in t.minted && (ok ==> s.copies[dst].source in s.bucket)
        && t.copies == s.copies[dst := if ok then Duplicated(key) else Failed]
        && t.reserved == if ok then s.reserved[key := ForCopy(dst)] else s.reserved
      case CopyLands(dst) => t.copies == s.copies - {dst} && (s.copies[dst].Duplicated? ==> t.reserved == s.reserved - {s.copies[dst].own})
      case RemoveRow(row) => t.doomed == if KeyOf(s, row).Some? then s.doomed + {KeyOf(s, row).value} else s.doomed
      case DeleteObject(key) => t.doomed == s.doomed - {key}
      case _ => true
  {
  }

  lemma EventKeepsKeysApart(s: State, e: Event)
    requires Inv(s) && Enabled(s, e) && Disciplined(s, e)
    ensures KeysApart(Apply(s, e))
  {
    if e.RemoveRow? && KeyOf(s, e.row).Some? {
      forall v | v in s.rows && v != e.row
        ensures KeyOf(s, v) != KeyOf(s, e.row)
      {
        assert KeyOf(s, v) == KeyOf(s, e.row) ==> Shares(s, e.row, v);
      }
    }
  }

  lemma EventKeepsCopies(s: State, e: Event)
    requires Inv(s) && Enabled(s, e) && Disciplined(s, e)
    ensures CopiesKept(Apply(s, e))
  {
  }

  lemma EventKeepsSharers(s: State, e: Event)
    requires Inv(s) && Enabled(s, e) && Disciplined(s, e)
    ensures SharersPending(Apply(s, e))
  {
    var s' := Apply(s, e);
    forall u, v | u in s'.rows && v in s'.rows && Shares(s', u, v)
      ensures u in s'.copies || v in s'.copies
    {
      assert u in s.rows && v in s.rows && Shares(s, u, v) ==> u in s.copies || v in s.copies;
    }
  }

  lemma EventKeepsInv(s: State, e: Event)
    requires Inv(s) && Enabled(s, e) && Disciplined(s, e)
    ensures Inv(Apply(s, e))
  {
    EventKeepsKeysApart(s, e);
    EventKeepsCopies(s, e);
    EventKeepsSharers(s, e);
  }

  // ----- runs -----

  ghost predicate IsRun(s: State, es: seq<Event>, disciplined: bool)
    decreases |es|
  {
    es != [] ==> Enabled(s, es[0]) && (disciplined ==> Disciplined(s, es[0])) && IsRun(Apply(s, es[0]), es[1..], disciplined)
  }

  ghost function Exec(s: State, es: seq<Event>, disciplined: bool): State
    requires IsRun(s, es, disciplined)
    decreases |es|
  {
    if es == [] then s else Exec(Apply(s, es[0]), es[1..], disciplined)
  }

  lemma {:induction false} RunKeepsInv(s: State, es: seq<Event>)
    requires Inv(s) && IsRun(s, es, true)
    ensures Inv(Exec(s, es, true))
    decreases |es|
  {
    if es != [] {
      EventKeepsInv(s, es[0]);
      RunKeepsInv(Apply(s, es[0]), es[1..]);
    }
  }

  /** Whenever every copy has been dealt with, no two rows resolve to the same object. */
  lemma RowsOwnTheirObjects(es: seq<Event>, u: Uuid, v: Uuid)
    requires IsRun(EMPTY, es, true)
    requires var s := Exec(EMPTY, es, true); s.copies == map[] && u in s.rows && v in s.rows
    ensures !Shares(Exec(EMPTY, es, true), u, v)
  {
    RunKeepsInv(EMPTY, es);
  }

  /** In any run, an object deleted on removal is one that no row points at. */
  lemma DeletesOnlyOrphans(es: seq<Event>, key: Key, v: Uuid)
    requires IsRun(EMPTY, es, true)
    requires var s := Exec(EMPTY, es, true); Enabled(s, DeleteObject(key)) && v in s.rows
    ensures KeyOf(Exec(EMPTY, es, true), v) != Some(key)
  {
    RunKeepsInv(EMPTY, es);
  }

  /** In every state of the run, row `v` is there and points at `key`. */
  ghost predicate PointsThroughout(s: State, es: seq<Event>, v: Uuid, key: Key)
    requires IsRun(s, es, true)
    decreases |es|
  {
    v in s.rows && KeyOf(s, v) == Some(key) && (es != [] ==> PointsThroughout(Apply(s, es[0]), es[1..], v, key))
  }

  /** An object that is there stays there for as long as some row keeps pointing at it. */
  lemma {:induction false} RunKeepsObject(s: State, es: seq<Event>, v: Uuid, key: Key)
    requires Inv(s) && IsRun(s, es, true) && PointsThroughout(s, es, v, key) && key in s.bucket
    ensures key in Exec(s, es, true).bucket
    decreases |es|
  {
    if es != [] {
      EventKeepsInv(s, es[0]);
      RunKeepsObject(Apply(s, es[0]), es[1..], v, key);
    }
  }

  /** Removing a row dooms an object in use exactly when another row shares it. */
  lemma RemovalSafeIffUnshared(s: State, row: Uuid)
    requires Inv(s) && row in s.rows
    ensures KeysApart(Apply(s, RemoveRow(row))) <==> forall v :: v in s.rows ==> !Shares(s, row, v)
  {
    var s' := Apply(s, RemoveRow(row));
    if v :| v in s.rows && Shares(s, row, v) {
      assert v in s'.rows && KeyOf(s', v) == KeyOf(s, row) && KeyOf(s', v).value in s'.doomed;
    } else {
      forall v | v in s'.rows && KeyOf(s', v).Some?
        ensures KeyOf(s', v).value !in s'.doomed
      {
        assert v in s.rows && KeyOf(s', v) == KeyOf(s, v) && !Shares(s, row, v);
      }
    }
  }

  /** Nothing points at the key, or awaits it, but rows that wait as copies, or `row` waits itself. */
  ghost predicate FreeToTake(s: State, row: Uuid, key: Key) {
    && key in s.minted && key !in s.reserved && key !in s.doomed
    && forall v :: v in s.rows && v != row && KeyOf(s, v) == Some(key) ==> row in s.copies || v in s.copies
  }

  /** Storing any string in a row keeps the invariant exactly when it resolves to nothing or to a key free to take. */
  lemma PlainWriteSafeIff(s: State, row: Uuid, thumb: Thumb)
    requires Inv(s)
    ensures Inv(Apply(s, PlainWrite(row, thumb))) <==> thumb.NoThumb? || thumb.key.None? || FreeToTake(s, row, thumb.key.value)
  {
    var s' := Apply(s, PlainWrite(row, thumb));
    assert forall v :: v in s.rows && v != row ==> v in s'.rows && KeyOf(s', v) == KeyOf(s, v);
    if !(thumb.NoThumb? || thumb.key.None?) {
      PlantedKey(s, row, thumb);
    } else {
      assert forall u, v :: Shares(s', u, v) ==> u != row && v != row && (u in s.rows && v in s.rows ==> Shares(s, u, v));
    }
  }

  lemma PlantedKey(s: State, row: Uuid, thumb: Thumb)
    requires Inv(s) && thumb.Thumb? && thumb.key.Some?
    ensures Inv(Apply(s, PlainWrite(row, thumb))) <==> FreeToTake(s, row, thumb.key.value)
  {
    var s', key := Apply(s, PlainWrite(row, thumb)), thumb.key.value;
    assert KeyOf(s', row) == Some(key) && forall v :: v in s.rows && v != row ==> v in s'.rows && KeyOf(s', v) == KeyOf(s, v);
    if FreeToTake(s, row, key) {
      forall u, v | u in s'.rows && v in s'.rows && Shares(s', u, v)
        ensures u in s'.copies || v in s'.copies
      {
        assert u != row && v != row ==> Shares(s, u, v);
      }
    } else if v :| v in s.rows && v != row && KeyOf(s, v) == Some(key) && row !in s.copies && v !in s.copies {
      assert Shares(s', row, v);
    }
  }

  /** Why copies come first: removing the source early takes the copy's object with it. */
  lemma EarlyRemovalBreaksCopy(a: Key, u: Uuid, v: Uuid)
    requires u != v
    ensures var es := [Create(a, true), Attach(u, a), CopyRow(u, v), RemoveRow(u), DeleteObject(a)];
      && IsRun(EMPTY, es, false)
      && KeyOf(Exec(EMPTY, es, false), v) == Some(a) && a !in Exec(EMPTY, es, false).bucket
  {
    var s1 := Apply(EMPTY, Create(a, true));
    var s2 := Apply(s1, Attach(u, a));
    var s3 := Apply(s2, CopyRow(u, v));
    var s4 := Apply(s3, RemoveRow(u));
    RunOfFive(EMPTY, s1, s2, s3, s4, Create(a, true), Attach(u, a), CopyRow(u, v), RemoveRow(u), DeleteObject(a));
  }

  /** Why other strings must not resolve: a planted pointer loses its object to the owner's removal. */
  lemma PlantedPointerBreaks(a: Key, u: Uuid, v: Uuid)
    requires u != v
    ensures var es := [Create(a, true), Attach(u, a), PlainWrite(v, PointTo(a)), RemoveRow(u), DeleteObject(a)];
      && IsRun(EMPTY, es, false)
      && KeyOf(Exec(EMPTY, es, false), v) == Some(a) && a !in Exec(EMPTY, es, false).bucket
  {
    var s1 := Apply(EMPTY, Create(a, true));
    var s2 := Apply(s1, Attach(u, a));
    var s3 := Apply(s2, PlainWrite(v, PointTo(a)));
    var s4 := Apply(s3, RemoveRow(u));
    RunOfFive(EMPTY, s1, s2, s3, s4, Create(a, true), Attach(u, a), PlainWrite(v, PointTo(a)), RemoveRow(u), DeleteObject(a));
  }

  lemma RunOfFive(s0: State, s1: State, s2: State, s3: State, s4: State, e0: Event, e1: Event, e2: Event, e3: Event, e4: Event)
    requires Enabled(s0, e0) && s1 == Apply(s0, e0)
    requires Enabled(s1, e1) && s2 == Apply(s1, e1)
    requires Enabled(s2, e2) && s3 == Apply(s2, e2)
    requires Enabled(s3, e3) && s4 == Apply(s3, e3)
    requires Enabled(s4, e4)
    ensures IsRun(s0, [e0, e1, e2, e3, e4], false) && Exec(s0, [e0, e1, e2, e3, e4], false) == Apply(s4, e4)
  {
    var es := [e0, e1, e2, e3, e4];
    assert es[1..] == [e1, e2, e3, e4] && es[1..][1..] == [e2, e3, e4];
    assert [e2, e3, e4][1..] == [e3, e4] && [e3, e4][1..] == [e4] && [e4][1..] == [];
    assert IsRun(Apply(s4, e4), [], false);
    assert IsRun(s4, [e4], false) && Exec(s4, [e4], false) == Apply(s4, e4);
    assert IsRun(s3, [e3, e4], false) && Exec(s3, [e3, e4], false) == Apply(s4, e4);
    assert IsRun(s2, [e2, e3, e4], false) && Exec(s2, [e2, e3, e4], false) == Apply(s4, e4);
    assert IsRun(s1, [e1, e2, e3, e4], false) && Exec(s1, [e1, e2, e3, e4], false) == Apply(s4, e4);
  }
}

/** The event handlers themselves, over the strings they are given. */
module ThumbnailHandlers {
  import opened Wrappers
  import opened Text
  import opened ThumbnailPointer
  import opened ThumbnailStore

  const MAX_THUMBNAIL_BYTES := 2 * 1024 * 1024

  class CreatedEvent {
    var url: Option<string>

    constructor (url: Option<string>)
      ensures this.url == url
    {
      this.url := url;
    }
  }

  class Entry {
    var thumbnail: Option<string>
    const uuid: Option<Uuid>

    constructor (thumbnail: Option<string>, uuid: Option<Uuid>)
      ensures this.thumbnail == thumbnail && this.uuid == uuid
    {
      this.thumbnail, this.uuid := thumbnail, uuid;
    }
  }

  /** An item's size after `Number(...)`: absent, not a finite number, or a number of bytes. */
  datatype Size = Absent | NotFinite | Bytes(n: int)

  /** `contentType` is trimmed, and empty when the item names none. */
  datatype Item = Item(contentType: string, size: Size, uploadKey: Option<Key>, thumbnailUrl: Option<string>)

  predicate Eligible(item: Item) {
    && item.contentType != ""
    && match item.size
       case Absent => true
       case NotFinite => false
       case Bytes(n) => 0 <= n <= MAX_THUMBNAIL_BYTES
  }

  /** How a row's string looks to the handlers. Empty strings count as no thumbnail. */
  function ThumbOf(t: Option<string>, pathname: string -> Option<string>): Thumb {
    if t.None? || t.value == "" then NoThumb
    else Thumb(Resolve(t.value, pathname), "data" <= t.value)
  }

  /** Some row resolves to `key`. */
  ghost predicate PointedAt(s: State, key: Key) {
    exists u :: u in s.rows && KeyOf(s, u) == Some(key)
  }

  /** No row is changed, no object lost, none but a new one added, and the invariant survives. */
  ghost predicate OnlyAdds(before: State, after: State, key: Key) {
    && after.rows == before.rows
    && before.bucket <= after.bucket <= before.bucket + {key}
    && (Inv(before) ==> Inv(after) && !PointedAt(after, key))
  }

  lemma OnlyAddsMeans(before: State, after: State, key: Key)
    ensures OnlyAdds(before, after, key) <==>
      && after.rows == before.rows
      && (forall k :: k in before.bucket ==> k in after.bucket) && (forall k :: k in after.bucket ==> k in before.bucket || k == key)
      && (Inv(before) ==> Inv(after) && forall u :: u in after.rows ==> KeyOf(after, u) != Some(key))
  {
  }

  /** How the handlers read a row's string. */
  lemma ThumbMeans(t: string, pathname: string -> Option<string>)
    ensures ThumbOf(None, pathname) == NoThumb && ThumbOf(Some(""), pathname) == NoThumb
    ensures t != "" ==> ThumbOf(Some(t), pathname) == Thumb(Resolve(t, pathname), |t| >= 4 && t[..4] == "data")
  {
  }

  lemma NewEventOnlyAdds(s: State, e: Event, key: Key)
    requires Enabled(s, e) && key !in s.minted
    requires (e.Create? || e.Migrate? || e.Duplicate?) && e.key == key
    ensures OnlyAdds(s, Apply(s, e), key)
  {
    if Inv(s) {
      EventKeepsInv(s, e);
    }
  }

  /** The row resolves to nothing, or to an object that no other row resolves to. */
  ghost predicate OwnsAlone(s: State, u: Uuid) {
    u in s.rows && forall v :: v in s.rows ==> !Shares(s, u, v)
  }

  /** The row update on its way will leave the row, if it is still there, with the stored key, and every other row alone. */
  ghost predicate MigratesTo(s: State, row: Uuid, key: Key) {
    && Enabled(s, MigrationLands(key))
    && Apply(s, MigrationLands(key)).rows == if row in s.rows then s.rows[row := Thumb(Some(key), false)] else s.rows
  }

  lemma MigratesToMeans(s: State, row: Uuid, key: Key)
    ensures MigratesTo(s, row, key) <==>
      && key in s.reserved && s.reserved[key].Migrating?
      && Apply(s, MigrationLands(key)).rows == if row in s.rows then s.rows[row := Thumb(Some(key), false)] else s.rows
  {
  }

  lemma MigrationIsOnItsWay(s: State, row: Option<Uuid>, key: Key)
    requires Enabled(s, Migrate(row, key, true))
    ensures var s' := Apply(s, Migrate(row, key, true)); key in s'.bucket && (row.Some? ==> MigratesTo(s', row.value, key))
  {
  }

  /** The first letter tells pointers and inline data apart. */
  lemma FirstLetters(t: string)
    ensures "data" <= t ==> !("s3://" <= t) && !("https" <= t)
  {
    assert "s3://"[0] == 's' && "https"[0] == 'h' && "data"[0] == 'd';
  }

  lemma OwnsAloneMeans(s: State, u: Uuid)
    ensures OwnsAlone(s, u) <==>
      u in s.rows && forall v :: v in s.rows && v != u && KeyOf(s, u).Some? ==> KeyOf(s, v) != KeyOf(s, u)
  {
    assert forall v :: Shares(s, u, v) <==> u != v && KeyOf(s, u).Some? && KeyOf(s, u) == KeyOf(s, v);
  }

  lemma LandedCopyOwnsAlone(s: State, dst: Uuid)
    requires Inv(s) && Enabled(s, CopyLands(dst))
    ensures Inv(Apply(s, CopyLands(dst))) && OwnsAlone(Apply(s, CopyLands(dst)), dst)
  {
    EventKeepsInv(s, CopyLands(dst));
    var s' := Apply(s, CopyLands(dst));
    forall v | v in s'.rows
      ensures !Shares(s', dst, v)
    {
      assert v != dst ==> KeyOf(s', v) == KeyOf(s, v);
    }
  }

  /** The handlers with the deployment they act on: the bucket, the rows and the URL parser. */
  class Extension {
    var state: State
    const bucketName: string
    const pathname: string -> Option<string>
    /** Whether an https URL names the configured bucket endpoint (the legacy pointer form). */
    const onEndpoint: string -> bool

    constructor (bucketName: string, pathname: string -> Option<string>, onEndpoint: string -> bool)
      ensures this.bucketName == bucketName && state == EMPTY
    {
      state, this.bucketName, this.pathname, this.onEndpoint := EMPTY, bucketName, pathname, onEndpoint;
    }

    /** `id` is what `randomUUID` returns; the handlers rely on it being new. */
    ghost predicate NewKey(id: string)
      reads this
    {
      IsUuid(id) && KEY_PREFIX + id !in state.minted
    }

    /** `decodes` and `putOk` are the image decoder's and the bucket's answers. */
    method HandleCreated(event: CreatedEvent, decodes: bool, id: string, putOk: bool) returns (threw: bool)
      requires NewKey(id)
      modifies this`state, event
      ensures var was := old(event.url);
        if was.None? || !("data:" <= was.value) then
          event.url == was && state == old(state) && !threw
        else if !decodes then
          event.url == None && state == old(state) && !threw
        else
          && event.url == Some(Pointer(bucketName, KEY_PREFIX + id))
          && state == Apply(old(state), Create(KEY_PREFIX + id, putOk)) && threw == !putOk
          && ('/' !in bucketName ==> ThumbOf(event.url, pathname) == PointTo(KEY_PREFIX + id))
      ensures OnlyAdds(old(state), state, KEY_PREFIX + id)
      ensures "thumbnails/" + id in state.bucket - old(state.bucket) ==> event.url == Some("s3://" + bucketName + "/" + ("thumbnails/" + id))
      ensures old(event.url).Some? && "data:" <= old(event.url).value && decodes && putOk ==> "thumbnails/" + id in state.bucket
    {
      threw := false;
      if event.url.None? || !("data:" <= event.url.value) {
        return;
      }
      if !decodes {
        event.url := None;
        return;
      }
      var key := KEY_PREFIX + id;
      event.url := Some(Pointer(bucketName, key));
      PointerRoundTrip(bucketName, key, pathname);
      assert Pointer(bucketName, key)[0] == 's' && "data"[0] == 'd';
      NewEventOnlyAdds(state, Create(key, putOk), key);
      state := Apply(state, Create(key, putOk));
      threw := !putOk;
    }

    /**
     One presigned upload per eligible item. `None` stands for an item that is not an object, at
     which the handler throws, after having served the items before it.
     */
    method HandleUploadPrepare(items: array<Option<Item>>, ids: seq<string>) returns (served: nat)
      requires |ids| == items.Length
      modifies this`state, items
      ensures served <= items.Length && forall i :: 0 <= i < served ==> old(items[i]).Some?
      ensures served < items.Length ==> old(items[served]).None?
      ensures forall i :: 0 <= i < served ==> items[i] == Some(Served(old(items[i]).value, bucketName, KEY_PREFIX + ids[i]))
      ensures forall i :: served <= i < items.Length ==> items[i] == old(items[i])
      ensures state == PrepareAll(old(state), old(items[..]), ids, served)
      ensures state.rows == old(state.rows) && state.bucket == old(state.bucket)
      ensures old(Inv(state) && NewIds(state, ids)) ==> Inv(state)
    {
      PrepareLeavesRows(state, items[..], ids);
      if Inv(state) && NewIds(state, ids) {
        PrepareKeepsInv(state, items[..], ids);
      }
      NothingPrepared(state, items[..], ids);
      hide PrepareAll, Grant;
      served := 0;
      while served < items.Length
        invariant 0 <= served <= items.Length && forall i :: 0 <= i < served ==> old(items[i]).Some?
        invariant forall i :: 0 <= i < served ==> items[i] == Some(Served(old(items[i]).value, bucketName, KEY_PREFIX + ids[i]))
        invariant forall i :: served <= i < items.Length ==> items[i] == old(items[i])
        invariant state == PrepareAll(old(state), old(items[..]), ids, served)
      {
        if items[served].None? {
          return;
        }
        PrepareNext(old(state), old(items[..]), ids, served);
        var item := items[served].value;
        if Eligible(item) {
          var key := KEY_PREFIX + ids[served];
          state := Grant(state, key);
          items[served] := Some(item.(uploadKey := Some(key), thumbnailUrl := Some(Pointer(bucketName, key))));
        }
        served := served + 1;
      }
    }

    /**
     Reading an entry: pointers the extension minted become signed URLs (`signed` renders one),
     other pointers are dropped, and inline data is uploaded with a row update left pending.
     */
    method HandleRead(entry: Entry, id: string, putOk: bool, signed: Key -> string) returns (threw: bool)
      requires NewKey(id)
      modifies this`state, entry
      ensures var t, thumb := old(entry.thumbnail), ThumbOf(old(entry.thumbnail), pathname);
        var pointer := t.Some? && ("s3://" <= t.value || ("https" <= t.value && onEndpoint(t.value)));
        if thumb.NoThumb? || (!pointer && !thumb.inline) then
          entry.thumbnail == t && state == old(state) && !threw
        else if pointer then
          state == old(state) && !threw
          && entry.thumbnail == (if thumb.key.Some? then Some(signed(thumb.key.value)) else None)
        else
          && state == Apply(old(state), Migrate(entry.uuid, KEY_PREFIX + id, putOk)) && threw == !putOk
          && entry.thumbnail == (if putOk then Some(signed(KEY_PREFIX + id)) else t)
      ensures OnlyAdds(old(state), state, KEY_PREFIX + id)
      ensures entry.thumbnail == old(entry.thumbnail) || entry.thumbnail.None?
        || exists key :: IsMintable(key) && entry.thumbnail == Some(signed(key))
      ensures var t, key := old(entry.thumbnail), KEY_PREFIX + id;
        t.Some? && "data" <= t.value && putOk ==>
          key in state.bucket && entry.thumbnail == Some(signed(key)) && (entry.uuid.Some? ==> MigratesTo(state, entry.uuid.value, key))
    {
      threw := false;
      if entry.thumbnail.None? || entry.thumbnail.value == "" {
        return;
      }
      var t := entry.thumbnail.value;
      FirstLetters(t);
      hide MigratesTo, OnlyAdds, Enabled, Apply, Resolve;
      if "s3://" <= t || ("https" <= t && onEndpoint(t)) {
        var key := Resolve(t, pathname);
        entry.thumbnail := if key.Some? then Some(signed(key.value)) else None;
      } else if "data" <= t {
        var key := KEY_PREFIX + id;
        assert key[|KEY_PREFIX|..] == id && IsMintable(key);
        NewEventOnlyAdds(state, Migrate(entry.uuid, key, putOk), key);
        if putOk {
          MigrationIsOnItsWay(state, entry.uuid, key);
        }
        state := Apply(state, Migrate(entry.uuid, key, putOk));
        if !putOk {
          return true;
        }
        entry.thumbnail := Some(signed(key));
      }
    }

    /**
     The copy handler up to its row update. `thumbnail` is the copied row's string, which is why
     the file system's copy has left `dst` waiting exactly when that string resolves.
     */
    method HandleCopy(dst: Uuid, thumbnail: Option<string>, id: string, copyOk: bool) returns (pending: bool)
      requires NewKey(id)
      requires ThumbOf(thumbnail, pathname).Thumb? && ThumbOf(thumbnail, pathname).key.Some? ==>
        dst in state.copies && state.copies[dst] == Requested(ThumbOf(thumbnail, pathname).key.value)
      modifies this`state
      ensures pending == (ThumbOf(thumbnail, pathname).Thumb? && ThumbOf(thumbnail, pathname).key.Some?)
      ensures !pending ==> state == old(state)
      ensures pending ==>
        var ok := copyOk && ThumbOf(thumbnail, pathname).key.value in old(state).bucket;
        state == Apply(old(state), Duplicate(dst, KEY_PREFIX + id, ok)) && Enabled(state, CopyLands(dst))
      ensures OnlyAdds(old(state), state, KEY_PREFIX + id)
      ensures pending && old(Inv(state)) ==> Inv(Apply(state, CopyLands(dst))) && OwnsAlone(Apply(state, CopyLands(dst)), dst)
      ensures pending && old(Inv(state)) ==>
        var landed, key := Apply(state, CopyLands(dst)), KEY_PREFIX + id;
        if copyOk && ThumbOf(thumbnail, pathname).key.value in old(state).bucket
        then landed.rows == state.rows[dst := Thumb(Some(key), false)] && key in landed.bucket
        else landed.rows == state.rows[dst := NoThumb]
    {
      if thumbnail.None? || thumbnail.value == "" {
        return false;
      }
      var source := Resolve(thumbnail.value, pathname);
      if source.None? {
        return false;
      }
      ghost var before := state;
      var duplicate := Duplicate(dst, KEY_PREFIX + id, copyOk && source.value in state.bucket);
      NewEventOnlyAdds(state, duplicate, KEY_PREFIX + id);
      state := Apply(state, duplicate);
      if Inv(before) {
        LandedCopyOwnsAlone(state, dst);
      }
      return true;
    }

    /** Removing an entry: the object a minted pointer names is deleted, and nothing else. */
    method HandleRemove(thumbnail: Option<string>)
      requires ThumbOf(thumbnail, pathname).Thumb? && ThumbOf(thumbnail, pathname).key.Some? ==>
        ThumbOf(thumbnail, pathname).key.value in state.doomed
      modifies this`state
      ensures var thumb := ThumbOf(thumbnail, pathname);
        if thumb.Thumb? && thumb.key.Some? then state == Apply(old(state), DeleteObject(thumb.key.value))
        else state == old(state)
      ensures state.rows == old(state.rows) && state.bucket <= old(state.bucket)
      ensures forall k, l :: k in old(state.bucket) - state.bucket && l in old(state.bucket) - state.bucket ==> k == l
      ensures old(Inv(state)) ==> Inv(state)
      ensures old(Inv(state)) ==> forall k :: PointedAt(state, k) && k in old(state.bucket) ==> k in state.bucket
    {
      if thumbnail.None? || thumbnail.value == "" {
        return;
      }
      var key := Resolve(thumbnail.value, pathname);
      if key.Some? {
        if Inv(state) {
          EventKeepsInv(state, DeleteObject(key.value));
        }
        state := Apply(state, DeleteObject(key.value));
      }
    }
  }

  function Served(item: Item, bucketName: string, key: Key): Item {
    if Eligible(item) then item.(uploadKey := Some(key), thumbnailUrl := Some(Pointer(bucketName, key))) else item
  }

  /** Items with a content type and a size that is absent or in bounds are served, all others left alone. */
  lemma ServedMeans(item: Item, bucketName: string, key: Key)
    ensures item.contentType != "" && (item.size.Absent? || (item.size.Bytes? && 0 <= item.size.n <= 2_097_152)) ==>
      Served(item, bucketName, key) == item.(uploadKey := Some(key), thumbnailUrl := Some("s3://" + bucketName + "/" + key))
    ensures item.contentType == "" || item.size.NotFinite? || (item.size.Bytes? && !(0 <= item.size.n <= 2_097_152)) ==>
      Served(item, bucketName, key) == item
  {
  }

  /** The deployment after the first `n` items of a prepare event. */
  function PrepareAll(s: State, items: seq<Option<Item>>, ids: seq<string>, n: nat): State
    requires n <= |items| == |ids|
  {
    if n == 0 then s
    else
      var s' := PrepareAll(s, items, ids, n - 1);
      if items[n - 1].Some? && Eligible(items[n - 1].value) then Grant(s', KEY_PREFIX + ids[n - 1]) else s'
  }

  lemma NothingPrepared(s: State, items: seq<Option<Item>>, ids: seq<string>)
    requires |items| == |ids|
    ensures PrepareAll(s, items, ids, 0) == s
  {
  }

  lemma PrepareNext(s: State, items: seq<Option<Item>>, ids: seq<string>, n: nat)
    requires n < |items| == |ids| && items[n].Some?
    ensures PrepareAll(s, items, ids, n + 1) ==
      var s' := PrepareAll(s, items, ids, n); if Eligible(items[n].value) then Grant(s', KEY_PREFIX + ids[n]) else s'
  {
  }

  /** No id stands for a minted key, and no two are alike. */
  ghost predicate NewIds(s: State, ids: seq<string>) {
    && (forall i :: 0 <= i < |ids| ==> KEY_PREFIX + ids[i] !in s.minted)
    && (forall i, j :: 0 <= i < j < |ids| ==> ids[i] != ids[j])
  }

  lemma {:induction false} PrepareLeavesRowsTo(s: State, items: seq<Option<Item>>, ids: seq<string>, n: nat)
    requires n <= |items| == |ids|
    ensures var s' := PrepareAll(s, items, ids, n); s'.rows == s.rows && s'.bucket == s.bucket
  {
    if n > 0 {
      PrepareLeavesRowsTo(s, items, ids, n - 1);
    }
  }

  lemma PrepareLeavesRows(s: State, items: seq<Option<Item>>, ids: seq<string>)
    requires |items| == |ids|
    ensures forall n: nat :: n <= |ids| ==> var s' := PrepareAll(s, items, ids, n); s'.rows == s.rows && s'.bucket == s.bucket
  {
    forall n: nat | n <= |ids|
      ensures var s' := PrepareAll(s, items, ids, n); s'.rows == s.rows && s'.bucket == s.bucket
    {
      PrepareLeavesRowsTo(s, items, ids, n);
    }
  }

  lemma PrepareKeepsInv(s: State, items: seq<Option<Item>>, ids: seq<string>)
    requires Inv(s) && NewIds(s, ids) && |items| == |ids|
    ensures forall n: nat :: n <= |ids| ==> Inv(PrepareAll(s, items, ids, n))
  {
    forall n: nat | n <= |ids|
      ensures Inv(PrepareAll(s, items, ids, n))
    {
      PrepareGrantsApart(s, items, ids, n);
    }
  }

  /** Every eligible item gets a key of its own, which no row, no other item and nobody else has. */
  lemma {:induction false} PrepareGrantsApart(s: State, items: seq<Option<Item>>, ids: seq<string>, n: nat)
    requires Inv(s) && n <= |items| == |ids| && NewIds(s, ids)
    ensures Inv(PrepareAll(s, items, ids, n))
    ensures forall i :: n <= i < |ids| ==> KEY_PREFIX + ids[i] !in PrepareAll(s, items, ids, n).minted
    ensures forall i :: 0 <= i < n && items[i].Some? && Eligible(items[i].value) ==>
      var s' := PrepareAll(s, items, ids, n);
      KEY_PREFIX + ids[i] in s'.reserved && s'.reserved[KEY_PREFIX + ids[i]] == Granted && KEY_PREFIX + ids[i] !in s.reserved
    ensures PrepareAll(s, items, ids, n).rows == s.rows && s.reserved.Keys <= PrepareAll(s, items, ids, n).reserved.Keys
  {
    if n > 0 {
      PrepareGrantsApart(s, items, ids, n - 1);
      var s' := PrepareAll(s, items, ids, n - 1);
      var key := KEY_PREFIX + ids[n - 1];
      if items[n - 1].Some? && Eligible(items[n - 1].value) {
        EventKeepsInv(s', Prepare(key));
        forall i | n <= i < |ids|
          ensures KEY_PREFIX + ids[i] != key
        {
          assert (KEY_PREFIX + ids[i])[|KEY_PREFIX|..] == ids[i] && key[|KEY_PREFIX|..] == ids[n - 1];
        }
      }
    }
  }
}
