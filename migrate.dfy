/**
 * lib/migrate.js: bootstrap an admin account when there is none, then, on a
 * store without locations, import the legacy `locations.json` array in one
 * transaction. Reading and parsing the file are abstracted to `DataFile`.
 */
module Migrate {
  import opened Wrappers
  import opened Json
  import opened Rows
  import opened Store

  /** `locations.json`: absent, present but not JSON (`JSON.parse` throws), or parsed. */
  datatype DataFile = Missing | Unparseable | Parsed(data: Json)

  const DefaultUsername: string := "admin"
  const DefaultPassword: string := "admin123"
  const UntitledLocation: string := "未命名"

  /** `process.env.X || default`: an unset or empty variable gives the default. */
  function EnvOr(env: Option<string>, default: string): (r: string)
    ensures r == default <==> env.None? || env.value == "" || env.value == default
    ensures r != "" || default == ""
  {
    if env.Some? && env.value != "" then env.value else default
  }

  /** `v || default`; `None` when reading `v` throws (a property of `null`). */
  function OrDefault(v: Lookup, default: Json): (r: Option<Json>)
    ensures r.None? <==> v.TypeError?
    ensures v.Defined? && Truthy(v.value) ==> r == Some(v.value)
    ensures v.Undefined? || (v.Defined? && !Truthy(v.value)) ==> r == Some(default)
  {
    match v
    case TypeError => None
    case Undefined => Some(default)
    case Defined(x) => if Truthy(x) then Some(x) else Some(default)
  }

  /**
   * The title and cover of `insertLocation.run(item.title || '未命名',
   * item.src || '', idx)`, or `None` when it throws. The index is a number
   * bound last (ItemRunBinds), so the two values must fill the two TEXT
   * columns: better-sqlite3 spreads arrays across parameters and refuses
   * booleans and nested values, and both columns are NOT NULL.
   */
  function ItemColumns(item: Json, numeral: int -> string): (r: Option<(string, string)>)
    ensures Member(item, "title").TypeError? ==> r.None?
  {
    var t := OrDefault(Member(item, "title"), JString(UntitledLocation));
    var c := OrDefault(Member(item, "src"), JString(""));
    if t.None? || c.None? then None
    else
      var bound := Bind([t.value, c.value], 2);
      if bound.None? then None
      else
        var title := ColumnText(bound.value[0], numeral);
        var cover := ColumnText(bound.value[1], numeral);
        if title.None? || cover.None? then None else Some((title.value, cover.value))
  }

  /**
   * Values that are numbers or strings bind one to a column: a string is
   * stored as it is and a number as SQLite writes it.
   */
  lemma ItemColumnsScalars(item: Json, numeral: int -> string)
    requires var t := OrDefault(Member(item, "title"), JString(UntitledLocation));
             var c := OrDefault(Member(item, "src"), JString(""));
             t.Some? && c.Some? && IsScalar(t.value) && IsScalar(c.value)
    ensures var t := OrDefault(Member(item, "title"), JString(UntitledLocation)).value;
            var c := OrDefault(Member(item, "src"), JString("")).value;
            var r := ItemColumns(item, numeral);
            r.Some? && ColumnText(t, numeral) == Some(r.value.0) && ColumnText(c, numeral) == Some(r.value.1)
  {
    var t := OrDefault(Member(item, "title"), JString(UntitledLocation)).value;
    var c := OrDefault(Member(item, "src"), JString("")).value;
    BindScalars([t, c], 2);
  }

  /** A title given as a one-element array of a string is spread by the driver and stored as that string. */
  lemma SingletonTitleSpread(item: Json, title: string, numeral: int -> string)
    requires Member(item, "title") == Defined(JArray([JString(title)]))
    requires Member(item, "src").Undefined?
    ensures ItemColumns(item, numeral) == Some((title, ""))
  {
    var args := [JString(title), JString("")];
    BindScalars(args, 2);
    BindSingletonArray(args, 0, 2);
    assert args[0 := JArray([args[0]])] == [JArray([JString(title)]), JString("")];
  }

  /** The full `insertLocation.run(...)`: the index takes the third parameter. */
  lemma ItemRunBinds(t: Json, c: Json, idx: int)
    ensures Bind([t, c, JNumber(idx)], 3) ==
      match Bind([t, c], 2) case None => None case Some(vs) => Some(vs + [JNumber(idx)])
  {
    assert [t, c, JNumber(idx)] == [t, c] + [JNumber(idx)];
    BindSnocScalar([t, c], JNumber(idx), 2);
  }

  /** `Array.isArray(item.details) ? item.details : []`. */
  function Details(item: Json): seq<Json> {
    match Member(item, "details")
    case Defined(JArray(ds)) => ds
    case _ => []
  }

  /**
   * The url, title and desc of `insertPhoto.run(locationId, detail.src ||
   * '', detail.title || '', detail.desc || '', dIdx)`, or `None` when it
   * throws. The location id and the index are numbers bound first and last
   * (DetailRunBinds), so the three values must fill the three TEXT columns;
   * `url` is NOT NULL, and a NULL title or desc reads back as `''`.
   */
  function DetailColumns(d: Json, numeral: int -> string): (r: Option<(string, string, string)>)
    ensures Member(d, "src").TypeError? ==> r.None?
  {
    var u := OrDefault(Member(d, "src"), JString(""));
    var t := OrDefault(Member(d, "title"), JString(""));
    var e := OrDefault(Member(d, "desc"), JString(""));
    if u.None? || t.None? || e.None? then None
    else
      var bound := Bind([u.value, t.value, e.value], 3);
      if bound.None? then None
      else
        var url := ColumnText(bound.value[0], numeral);
        if url.None? then None
        else Some((url.value, NullableText(bound.value[1], numeral), NullableText(bound.value[2], numeral)))
  }

  /** Scalar values bind one to a column; a `src` that is a number or a string is never NULL. */
  lemma DetailColumnsScalars(d: Json, numeral: int -> string)
    requires var u := OrDefault(Member(d, "src"), JString(""));
             var t := OrDefault(Member(d, "title"), JString(""));
             var e := OrDefault(Member(d, "desc"), JString(""));
             u.Some? && t.Some? && e.Some? && IsScalar(u.value) && IsScalar(t.value) && IsScalar(e.value)
    ensures var u := OrDefault(Member(d, "src"), JString("")).value;
            var t := OrDefault(Member(d, "title"), JString("")).value;
            var e := OrDefault(Member(d, "desc"), JString("")).value;
            var r := DetailColumns(d, numeral);
            r.Some? && ColumnText(u, numeral) == Some(r.value.0) &&
            r.value.1 == NullableText(t, numeral) && r.value.2 == NullableText(e, numeral)
  {
    var u := OrDefault(Member(d, "src"), JString("")).value;
    var t := OrDefault(Member(d, "title"), JString("")).value;
    var e := OrDefault(Member(d, "desc"), JString("")).value;
    BindScalars([u, t, e], 3);
  }

  /**
   * A detail written as a bare URL string, a form the location page accepts,
   * has no `src` property: `detail.src` is `undefined`, so the photo is
   * stored with url `''` and the URL is lost.
   */
  lemma BareUrlDetailLosesSrc(url: string, numeral: int -> string)
    ensures DetailColumns(JString(url), numeral) == Some(("", "", ""))
  {
    BindScalars([JString(""), JString(""), JString("")], 3);
  }

  /** The detail a bare URL string stands for, `{ src: url }`, as the location page reads it. */
  function AsDetailObject(d: Json): (r: Json)
    ensures d.JString? ==> Member(r, "src") == Defined(d)
    ensures !d.JString? ==> r == d
  {
    if d.JString? then JObject([("src", d)]) else d
  }

  /** The import's columns with bare URL strings read as `{ src: url }` first. */
  function NormalisedDetailColumns(d: Json, numeral: int -> string): (r: Option<(string, string, string)>)
    ensures !d.JString? ==> r == DetailColumns(d, numeral)
  {
    DetailColumns(AsDetailObject(d), numeral)
  }

  /** With the normalisation, a non-empty bare URL is stored as the photo's url, with empty caption. */
  lemma BareUrlDetailKeepsSrc(url: string, numeral: int -> string)
    requires url != ""
    ensures NormalisedDetailColumns(JString(url), numeral) == Some((url, "", ""))
  {
    var d := AsDetailObject(JString(url));
    assert Member(d, "title").Undefined? && Member(d, "desc").Undefined?;
    BindScalars([JString(url), JString(""), JString("")], 3);
  }

  /** The full `insertPhoto.run(...)`: the location id and the index take the first and the last parameter. */
  lemma DetailRunBinds(locationId: int, u: Json, t: Json, e: Json, dIdx: int)
    ensures Bind([JNumber(locationId), u, t, e, JNumber(dIdx)], 5) ==
      match Bind([u, t, e], 3) case None => None case Some(vs) => Some([JNumber(locationId)] + vs + [JNumber(dIdx)])
  {
    assert [JNumber(locationId), u, t, e, JNumber(dIdx)] == [JNumber(locationId)] + [u, t, e] + [JNumber(dIdx)];
    BindBetweenScalars(JNumber(locationId), [u, t, e], JNumber(dIdx), 3);
  }

  /**
   * How the import evaluates one item and one detail: the columns it binds,
   * or `None` when evaluating or binding them throws. The import below is
   * stated for any such evaluation; `migrate()` uses `BoundColumns`.
   */
  datatype Columns = Columns(item: Json -> Option<(string, string)>, detail: Json -> Option<(string, string, string)>)

  /** The columns `insertLocation.run` and `insertPhoto.run` bind, numbers written by `numeral`. */
  function BoundColumns(numeral: int -> string): Columns {
    Columns(item => ItemColumns(item, numeral), d => DetailColumns(d, numeral))
  }

  predicate DetailImportable(d: Json, cols: Columns) {
    cols.detail(d).Some?
  }

  /** No column of the item or of any of its details throws when it is evaluated and bound. */
  predicate ItemImportable(item: Json, cols: Columns) {
    cols.item(item).Some? &&
    forall j :: 0 <= j < |Details(item)| ==> DetailImportable(Details(item)[j], cols)
  }

  /** The columns of the photo imported from detail `d` of location `locationId`. */
  function DetailFields(d: Json, locationId: int, cols: Columns): PhotoFields {
    var (url, title, desc) := cols.detail(d).GetOr(("", "", ""));
    PhotoFields(locationId, url, title, desc)
  }

  // ----- The import, one INSERT at a time -----

  /** `insertPhoto.run(locationId, detail.src || '', detail.title || '', detail.desc || '', dIdx)`. */
  function ImportDetail(d: Json, dIdx: int, locationId: int, t: Tables, cols: Columns): (r: Option<Tables>)
    ensures r.Some? <==> DetailImportable(d, cols)
    ensures r.Some? ==> r.value.locations == t.locations && r.value.locationSeq == t.locationSeq &&
                        t.photos <= r.value.photos && |r.value.photos| == |t.photos| + 1
  {
    if !DetailImportable(d, cols) then None
    else
      var id := t.photoSeq + 1;
      Some(t.(photos := t.photos + [Row(id, dIdx, DetailFields(d, locationId, cols))], photoSeq := id))
  }

  /** The details inserted in order; `None` once one of them throws. */
  function ImportDetails(ds: seq<Json>, locationId: int, t: Tables, cols: Columns): (r: Option<Tables>)
    ensures r.Some? ==> r.value.locations == t.locations && r.value.locationSeq == t.locationSeq &&
                        t.photos <= r.value.photos && |r.value.photos| == |t.photos| + |ds|
    decreases |ds|
  {
    if ds == [] then Some(t)
    else
      match ImportDetails(ds[..|ds| - 1], locationId, t, cols)
      case None => None
      case Some(t1) => ImportDetail(ds[|ds| - 1], |ds| - 1, locationId, t1, cols)
  }

  /** `insertLocation.run(item.title || '未命名', item.src || '', idx)`, then the item's details. */
  function ImportItem(item: Json, idx: int, t: Tables, cols: Columns): (r: Option<Tables>)
    ensures r.Some? ==> t.locations <= r.value.locations && |r.value.locations| == |t.locations| + 1 &&
                        r.value.locationSeq == t.locationSeq + 1 && t.photos <= r.value.photos
  {
    var columns := cols.item(item);
    if columns.None? then None
    else
      var id := t.locationSeq + 1;
      var t1 := t.(locations := t.locations + [Row(id, idx, LocationFields(columns.value.0, columns.value.1))], locationSeq := id);
      ImportDetails(Details(item), id, t1, cols)
  }

  /** The transaction body over `items`; `None` when any statement throws. */
  function ImportItems(items: seq<Json>, t: Tables, cols: Columns): (r: Option<Tables>)
    ensures r.Some? ==> t.locations <= r.value.locations && |r.value.locations| == |t.locations| + |items| &&
                        r.value.locationSeq == t.locationSeq + |items| && t.photos <= r.value.photos
    decreases |items|
  {
    if items == [] then Some(t)
    else
      match ImportItems(items[..|items| - 1], t, cols)
      case None => None
      case Some(t1) => ImportItem(items[|items| - 1], |items| - 1, t1, cols)
  }

  /** `Array.isArray(data) && data.length > 0`. */
  predicate Importable(file: DataFile) {
    file.Parsed? && file.data.JArray? && |file.data.elems| > 0
  }

  /**
   * `migrate()`. `hashOf` stands for `bcrypt.hashSync(password, 10)`; the
   * environment variables are parameters. A failure inside the transaction
   * rolls it back; the exception is caught and only logged.
   */
  method Migrate(db: Database, envUsername: Option<string>, envPassword: Option<string>,
                 hashOf: string -> string, file: DataFile, numeral: int -> string)
    requires db.Valid()
    modifies db
    ensures db.Valid()
    ensures old(|db.admins|) == 0 ==>
      db.admins == [Admin(old(db.adminSeq) + 1, EnvOr(envUsername, DefaultUsername), hashOf(EnvOr(envPassword, DefaultPassword)))]
    ensures old(|db.admins|) != 0 ==> db.admins == old(db.admins)
    ensures old(|db.locations|) > 0 || !Importable(file) ==> db.Snapshot() == old(db.Snapshot())
    ensures old(|db.locations|) == 0 && Importable(file) ==>
      db.Snapshot() == ImportItems(file.data.elems, old(db.Snapshot()), BoundColumns(numeral)).GetOr(old(db.Snapshot()))
  {
    if |db.admins| == 0 {
      var username := EnvOr(envUsername, DefaultUsername);
      var password := EnvOr(envPassword, DefaultPassword);
      var _ := db.CreateAdmin(username, hashOf(password));
    }
    if |db.locations| > 0 {
      return;
    }
    if !file.Parsed? || !file.data.JArray? || |file.data.elems| == 0 {
      return;
    }
    var items := file.data.elems;
    var start := db.Snapshot();
    var ok := InsertItems(db, items, BoundColumns(numeral));
    if !ok {
      db.Restore(start);
    }
  }

  /** The transaction body `items.forEach(...)`: false when a statement throws, leaving partial writes. */
  method InsertItems(db: Database, items: seq<Json>, cols: Columns) returns (ok: bool)
    requires db.Valid()
    modifies db
    ensures db.Valid() && db.admins == old(db.admins) && db.adminSeq == old(db.adminSeq)
    ensures ok ==> ImportItems(items, old(db.Snapshot()), cols) == Some(db.Snapshot())
    ensures !ok ==> ImportItems(items, old(db.Snapshot()), cols).None?
  {
    var start := db.Snapshot();
    var i := 0;
    while i < |items|
      invariant 0 <= i <= |items|
      invariant db.Valid() && db.admins == old(db.admins) && db.adminSeq == old(db.adminSeq)
      invariant ImportItems(items[..i], start, cols) == Some(db.Snapshot())
    {
      assert items[..i + 1][..i] == items[..i];
      ghost var before := db.Snapshot();
      var itemOk := InsertItem(db, items[i], i, cols);
      assert ImportItems(items[..i + 1], start, cols) == ImportItem(items[i], i, before, cols);
      if !itemOk {
        ImportFailureSticks(items, i + 1, start, cols);
        return false;
      }
      i := i + 1;
    }
    assert items[..i] == items;
    ok := true;
  }

  /** One item of the array: its `insertLocation`, then its details. */
  method InsertItem(db: Database, item: Json, idx: int, cols: Columns) returns (ok: bool)
    requires db.Valid()
    modifies db
    ensures db.Valid() && db.admins == old(db.admins) && db.adminSeq == old(db.adminSeq)
    ensures ok ==> ImportItem(item, idx, old(db.Snapshot()), cols) == Some(db.Snapshot())
    ensures !ok ==> ImportItem(item, idx, old(db.Snapshot()), cols).None?
  {
    var columns := cols.item(item);
    if columns.None? {
      return false;
    }
    ghost var beforeItem := db.Snapshot();
    var locationId := db.InsertLocation(columns.value.0, columns.value.1, idx);
    assert db.locations[|db.locations| - 1].id == locationId;
    ItemStep(item, idx, beforeItem, cols, db.Snapshot());
    ok := InsertDetails(db, Details(item), locationId, cols);
  }

  /** `item.details.forEach(...)` for one new location. */
  method InsertDetails(db: Database, ds: seq<Json>, locationId: int, cols: Columns) returns (ok: bool)
    requires db.Valid() && FindById(db.locations, locationId).Some?
    modifies db
    ensures db.Valid() && db.admins == old(db.admins) && db.adminSeq == old(db.adminSeq)
    ensures ok ==> ImportDetails(ds, locationId, old(db.Snapshot()), cols) == Some(db.Snapshot())
    ensures !ok ==> ImportDetails(ds, locationId, old(db.Snapshot()), cols).None?
  {
    var start := db.Snapshot();
    var j := 0;
    while j < |ds|
      invariant 0 <= j <= |ds|
      invariant db.Valid() && db.admins == old(db.admins) && db.adminSeq == old(db.adminSeq)
      invariant db.locations == start.locations
      invariant ImportDetails(ds[..j], locationId, start, cols) == Some(db.Snapshot())
    {
      ghost var before := db.Snapshot();
      var inserted := InsertDetail(db, ds[j], j, locationId, cols);
      DetailsStep(ds, j, locationId, start, cols, before);
      if !inserted {
        DetailFailureSticks(ds, j + 1, locationId, start, cols);
        return false;
      }
      j := j + 1;
    }
    assert ds[..j] == ds;
    ok := true;
  }

  /** One detail of `item.details.forEach(...)`: evaluate its columns, then insert it. */
  method InsertDetail(db: Database, d: Json, dIdx: int, locationId: int, cols: Columns) returns (ok: bool)
    requires db.Valid() && FindById(db.locations, locationId).Some?
    modifies db
    ensures db.Valid() && db.admins == old(db.admins) && db.adminSeq == old(db.adminSeq)
    ensures db.locations == old(db.locations)
    ensures ok ==> ImportDetail(d, dIdx, locationId, old(db.Snapshot()), cols) == Some(db.Snapshot())
    ensures !ok ==> ImportDetail(d, dIdx, locationId, old(db.Snapshot()), cols).None?
  {
    var columns := cols.detail(d);
    if columns.None? {
      return false;
    }
    var photoId := db.InsertPhoto(locationId, columns.value.0, columns.value.1, columns.value.2, dIdx);
    ok := true;
  }

  /** One item: its location row, then its details against the new location id. */
  lemma ItemStep(item: Json, idx: int, t: Tables, cols: Columns, t1: Tables)
    requires cols.item(item).Some?
    requires t1 == t.(locations := t.locations + [Row(t.locationSeq + 1, idx, ItemLocation(item, cols))],
                      locationSeq := t.locationSeq + 1)
    ensures ImportItem(item, idx, t, cols) == ImportDetails(Details(item), t1.locationSeq, t1, cols)
  {
  }

  /** The import of the first `j + 1` details is that of the first `j`, then detail `j`. */
  lemma DetailsStep(ds: seq<Json>, j: int, locationId: int, t: Tables, cols: Columns, t1: Tables)
    requires 0 <= j < |ds|
    requires ImportDetails(ds[..j], locationId, t, cols) == Some(t1)
    ensures ImportDetails(ds[..j + 1], locationId, t, cols) == ImportDetail(ds[j], j, locationId, t1, cols)
  {
    assert ds[..j + 1][..j] == ds[..j];
  }

  lemma {:induction false} DetailFailureSticks(ds: seq<Json>, n: int, locationId: int, t: Tables, cols: Columns)
    requires 0 < n <= |ds|
    requires ImportDetails(ds[..n], locationId, t, cols).None?
    ensures ImportDetails(ds, locationId, t, cols).None?
    decreases |ds| - n
  {
    if n < |ds| {
      assert ds[..n + 1][..n] == ds[..n];
      DetailFailureSticks(ds, n + 1, locationId, t, cols);
    } else {
      assert ds[..n] == ds;
    }
  }

  lemma {:induction false} ImportFailureSticks(items: seq<Json>, n: int, t: Tables, cols: Columns)
    requires 0 < n <= |items|
    requires ImportItems(items[..n], t, cols).None?
    ensures ImportItems(items, t, cols).None?
    decreases |items| - n
  {
    if n < |items| {
      assert items[..n + 1][..n] == items[..n];
      ImportFailureSticks(items, n + 1, t, cols);
    } else {
      assert items[..n] == items;
    }
  }

  // ----- What the import promises -----

  /** The photo columns of details `ds` of location `locationId`. */
  function DetailFieldsOf(ds: seq<Json>, locationId: int, cols: Columns): (r: seq<PhotoFields>)
    ensures |r| == |ds|
    ensures forall k :: 0 <= k < |r| ==> r[k].locationId == locationId
    decreases |ds|
  {
    if ds == [] then []
    else DetailFieldsOf(ds[..|ds| - 1], locationId, cols) + [DetailFields(ds[|ds| - 1], locationId, cols)]
  }

  /** Entry `j` holds the columns of detail `j`. */
  lemma {:induction false} DetailFieldsOfAt(ds: seq<Json>, locationId: int, cols: Columns, j: int)
    requires 0 <= j < |ds|
    ensures DetailFieldsOf(ds, locationId, cols)[j] == DetailFields(ds[j], locationId, cols)
    decreases |ds|
  {
    if j < |ds| - 1 {
      DetailFieldsOfAt(ds[..|ds| - 1], locationId, cols, j);
    }
  }

  /** The location columns of one item. */
  function ItemLocation(item: Json, cols: Columns): LocationFields {
    var (title, cover) := cols.item(item).GetOr((UntitledLocation, ""));
    LocationFields(title, cover)
  }

  function ItemLocations(items: seq<Json>, cols: Columns): (r: seq<LocationFields>)
    ensures |r| == |items|
    decreases |items|
  {
    if items == [] then []
    else ItemLocations(items[..|items| - 1], cols) + [ItemLocation(items[|items| - 1], cols)]
  }

  lemma {:induction false} ItemLocationsAt(items: seq<Json>, cols: Columns, i: int)
    requires 0 <= i < |items|
    ensures ItemLocations(items, cols)[i] == ItemLocation(items[i], cols)
    decreases |items|
  {
    if i < |items| - 1 {
      ItemLocationsAt(items[..|items| - 1], cols, i);
    }
  }

  /** For item `i`, the photo columns of its details, as photos of location `base + 1 + i`. */
  function ItemPhotos(items: seq<Json>, base: int, cols: Columns): (r: seq<seq<PhotoFields>>)
    ensures |r| == |items|
    decreases |items|
  {
    if items == [] then []
    else ItemPhotos(items[..|items| - 1], base, cols) + [DetailFieldsOf(Details(items[|items| - 1]), base + |items|, cols)]
  }

  lemma {:induction false} ItemPhotosAt(items: seq<Json>, base: int, cols: Columns, i: int)
    requires 0 <= i < |items|
    ensures ItemPhotos(items, base, cols)[i] == DetailFieldsOf(Details(items[i]), base + 1 + i, cols)
    decreases |items|
  {
    if i < |items| - 1 {
      ItemPhotosAt(items[..|items| - 1], base, cols, i);
    }
  }

  /** The details of one item import exactly when none of them throws. */
  lemma {:induction false} ImportDetailsSucceed(ds: seq<Json>, locationId: int, t: Tables, cols: Columns)
    ensures ImportDetails(ds, locationId, t, cols).Some? <==> forall j :: 0 <= j < |ds| ==> DetailImportable(ds[j], cols)
    decreases |ds|
  {
    if ds != [] {
      var init := ds[..|ds| - 1];
      ImportDetailsSucceed(init, locationId, t, cols);
      assert forall j :: 0 <= j < |init| ==> init[j] == ds[j];
    }
  }

  /**
   * When the details of one item import, detail `j` becomes the next photo,
   * of that location, with `sort_order` `j`.
   */
  lemma {:induction false} ImportDetailsRows(ds: seq<Json>, locationId: int, t: Tables, cols: Columns)
    requires ImportDetails(ds, locationId, t, cols).Some?
    ensures ImportDetails(ds, locationId, t, cols).value ==
      t.(photos := t.photos + Numbered(DetailFieldsOf(ds, locationId, cols), t.photoSeq), photoSeq := t.photoSeq + |ds|)
    decreases |ds|
  {
    if ds == [] {
      assert t.photos + Numbered(DetailFieldsOf(ds, locationId, cols), t.photoSeq) == t.photos;
    } else {
      var n := |ds|;
      var init := ds[..n - 1];
      var last := DetailFields(ds[n - 1], locationId, cols);
      ImportDetailsRows(init, locationId, t, cols);
      var t1 := ImportDetails(init, locationId, t, cols).value;
      assert ImportDetails(ds, locationId, t, cols) == ImportDetail(ds[n - 1], n - 1, locationId, t1, cols);
      DetailFieldsOfSnoc(ds, locationId, cols);
      NumberedAppend(DetailFieldsOf(init, locationId, cols), last, t.photoSeq);
      assert t1.photos + [Row(t1.photoSeq + 1, n - 1, last)] ==
             t.photos + Numbered(DetailFieldsOf(ds, locationId, cols), t.photoSeq);
    }
  }

  lemma DetailFieldsOfSnoc(ds: seq<Json>, locationId: int, cols: Columns)
    requires ds != []
    ensures DetailFieldsOf(ds, locationId, cols) ==
      DetailFieldsOf(ds[..|ds| - 1], locationId, cols) + [DetailFields(ds[|ds| - 1], locationId, cols)]
  {
  }

  /** One item imports exactly when neither it nor any of its details throws. */
  lemma ImportItemSucceeds(item: Json, idx: int, t: Tables, cols: Columns)
    ensures ImportItem(item, idx, t, cols).Some? <==> ItemImportable(item, cols)
  {
    var columns := cols.item(item);
    if columns.Some? {
      var id := t.locationSeq + 1;
      var t1 := t.(locations := t.locations + [Row(id, idx, LocationFields(columns.value.0, columns.value.1))], locationSeq := id);
      ImportDetailsSucceed(Details(item), id, t1, cols);
    }
  }

  /** A successful item appends its location row, then one photo row per detail. */
  lemma ImportItemRows(item: Json, idx: int, t: Tables, cols: Columns)
    requires ImportItem(item, idx, t, cols).Some?
    ensures var id := t.locationSeq + 1;
      ImportItem(item, idx, t, cols).value ==
        Tables(t.locations + [Row(id, idx, ItemLocation(item, cols))],
               t.photos + Numbered(DetailFieldsOf(Details(item), id, cols), t.photoSeq),
               id, t.photoSeq + |Details(item)|)
  {
    var id := t.locationSeq + 1;
    var columns := cols.item(item);
    assert ItemLocation(item, cols) == LocationFields(columns.value.0, columns.value.1);
    var t1 := t.(locations := t.locations + [Row(id, idx, ItemLocation(item, cols))], locationSeq := id);
    assert ImportItem(item, idx, t, cols) == ImportDetails(Details(item), id, t1, cols);
    ImportDetailsRows(Details(item), id, t1, cols);
  }

  /** The whole import succeeds exactly when no item, and no detail of one, throws. */
  lemma {:induction false} ImportItemsSucceed(items: seq<Json>, t: Tables, cols: Columns)
    ensures ImportItems(items, t, cols).Some? <==> forall i :: 0 <= i < |items| ==> ItemImportable(items[i], cols)
    decreases |items|
  {
    if items != [] {
      var n := |items|;
      var init := items[..n - 1];
      var last := items[n - 1];
      assert items == init + [last];
      ImportItemsSucceed(init, t, cols);
      ImportItemsSnoc(items, init, last, t, cols);
      var r := ImportItems(init, t, cols);
      if r.Some? {
        ImportItemSucceeds(last, n - 1, r.value, cols);
      }
      ImportableSnoc(items, init, last, cols);
    }
  }

  /** Importing `init + [last]` imports `init`, then `last` at position `|init|`. */
  lemma ImportItemsSnoc(items: seq<Json>, init: seq<Json>, last: Json, t: Tables, cols: Columns)
    requires items == init + [last]
    ensures ImportItems(items, t, cols) ==
      match ImportItems(init, t, cols)
      case None => None
      case Some(t1) => ImportItem(last, |init|, t1, cols)
  {
    assert items[..|items| - 1] == init;
  }

  /** Every item is importable exactly when all but the last are and the last one is. */
  lemma ImportableSnoc(items: seq<Json>, init: seq<Json>, last: Json, cols: Columns)
    requires items == init + [last]
    ensures (forall i :: 0 <= i < |items| ==> ItemImportable(items[i], cols)) <==>
            (forall i :: 0 <= i < |init| ==> ItemImportable(init[i], cols)) && ItemImportable(last, cols)
  {
    assert forall i :: 0 <= i < |init| ==> init[i] == items[i];
    assert items[|init|] == last;
  }

  /**
   * What a successful import of `items` into `t` left in `t'`: item `i` is
   * the `i`-th new location, with `sort_order` `i`; the old photos are kept;
   * every new photo belongs to a new location; and the photos of location
   * `i` are its details, in order, with `sort_order` their index.
   */
  ghost predicate ImportedAs(items: seq<Json>, t: Tables, t': Tables, cols: Columns) {
    Appended(t, t', ItemLocations(items, cols), ItemPhotos(items, t.locationSeq, cols))
  }

  lemma {:induction false} ImportItemsRows(items: seq<Json>, t: Tables, cols: Columns)
    requires ImportItems(items, t, cols).Some?
    ensures ImportedAs(items, t, ImportItems(items, t, cols).value, cols)
    decreases |items|
  {
    if items == [] {
      AppendedNothing(t);
      assert ItemLocations(items, cols) == [] && ItemPhotos(items, t.locationSeq, cols) == [];
    } else {
      var n := |items|;
      var init := items[..n - 1];
      var t1 := ImportItems(init, t, cols).value;
      ImportItemsRows(init, t, cols);
      assert ImportItems(items, t, cols) == ImportItem(items[n - 1], n - 1, t1, cols);
      ImportItemRows(items[n - 1], n - 1, t1, cols);
      ImportedItemStep(items, t, cols, t1, ImportItems(items, t, cols).value);
    }
  }

  /** The inductive step of ImportItemsRows: the last item's location, then its details. */
  lemma ImportedItemStep(items: seq<Json>, t: Tables, cols: Columns, t1: Tables, t': Tables)
    requires items != []
    requires ImportedAs(items[..|items| - 1], t, t1, cols)
    requires var last := items[|items| - 1];
      var id := t1.locationSeq + 1;
      t' == Tables(t1.locations + [Row(id, |items| - 1, ItemLocation(last, cols))],
                   t1.photos + Numbered(DetailFieldsOf(Details(last), id, cols), t1.photoSeq),
                   id, t1.photoSeq + |Details(last)|)
    ensures ImportedAs(items, t, t', cols)
  {
    var n := |items|;
    var init := items[..n - 1];
    assert t1.locationSeq + 1 == t.locationSeq + n;
    AppendedItem(init, items[n - 1], t, cols, t1, t');
    ItemsAppend(items, t.locationSeq, cols, t1.locationSeq + 1);
  }

  lemma AppendedItem(init: seq<Json>, last: Json, t: Tables, cols: Columns, t1: Tables, t': Tables)
    requires Appended(t, t1, ItemLocations(init, cols), ItemPhotos(init, t.locationSeq, cols))
    requires var id := t1.locationSeq + 1;
      t' == Tables(t1.locations + [Row(id, |init|, ItemLocation(last, cols))],
                   t1.photos + Numbered(DetailFieldsOf(Details(last), id, cols), t1.photoSeq),
                   id, t1.photoSeq + |Details(last)|)
    ensures Appended(t, t', ItemLocations(init, cols) + [ItemLocation(last, cols)],
                     ItemPhotos(init, t.locationSeq, cols) + [DetailFieldsOf(Details(last), t1.locationSeq + 1, cols)])
  {
    AppendedStep(t, t1, t', ItemLocations(init, cols), ItemPhotos(init, t.locationSeq, cols),
                 ItemLocation(last, cols), DetailFieldsOf(Details(last), t1.locationSeq + 1, cols), t1.photoSeq);
  }

  lemma ItemsAppend(items: seq<Json>, base: int, cols: Columns, id: int)
    requires items != [] && id == base + |items|
    ensures ItemLocations(items, cols) == ItemLocations(items[..|items| - 1], cols) + [ItemLocation(items[|items| - 1], cols)]
    ensures ItemPhotos(items, base, cols) ==
      ItemPhotos(items[..|items| - 1], base, cols) + [DetailFieldsOf(Details(items[|items| - 1]), id, cols)]
  {
  }

  // ----- Import, then the public JSON -----

  /** The public form of one legacy detail after the import: empty title and desc are left out. */
  function DetailShape(d: Json, cols: Columns): PublicDetail {
    var (url, title, desc) := cols.detail(d).GetOr(("", "", ""));
    PublicDetail(url, NonEmpty(title), NonEmpty(desc))
  }

  /** The public form of one legacy item after the import. */
  function ItemShape(item: Json, cols: Columns): PublicLocation {
    var ds := Details(item);
    var (title, cover) := cols.item(item).GetOr((UntitledLocation, ""));
    PublicLocation(cover, title,
      seq(|ds|, j requires 0 <= j < |ds| => DetailShape(ds[j], cols)))
  }

  /**
   * Importing `locations.json` into the empty store and reading it back
   * through `getLocationsForPublic` gives the import's rendering of each item
   * (`ItemShape`), item by item and detail by detail, in file order. That
   * rendering is not the file itself: a missing or empty title becomes
   * `'未命名'`, a missing `src` becomes `''`, empty detail titles and
   * descriptions are left out, and a detail given as a bare URL string is
   * published with `src` `''` (BareUrlDetailLosesSrc).
   */
  lemma ImportThenPublish(items: seq<Json>, t: Tables, cols: Columns)
    requires t.locations == [] && t.photos == []
    requires forall i :: 0 <= i < |items| ==> ItemImportable(items[i], cols)
    ensures ImportItems(items, t, cols).Some?
    ensures var t' := ImportItems(items, t, cols).value;
      PublicLocations(t'.locations, t'.photos) == seq(|items|, i requires 0 <= i < |items| => ItemShape(items[i], cols))
  {
    ImportItemsSucceed(items, t, cols);
    ImportItemsRows(items, t, cols);
    var t' := ImportItems(items, t, cols).value;
    assert t'.photos[|t.photos|..] == t'.photos;
    assert t'.locations == Numbered(ItemLocations(items, cols), t.locationSeq) by {
      assert t'.locations == [] + Numbered(ItemLocations(items, cols), t.locationSeq);
    }
    PublishedImport(items, t.locationSeq, cols, t'.locations, t'.photos);
  }

  /** The import's evaluation with bare URL details read as `{ src: url }`. */
  function NormalisedColumns(numeral: int -> string): Columns {
    Columns(item => ItemColumns(item, numeral), d => NormalisedDetailColumns(d, numeral))
  }

  /**
   * With the normalised evaluation, a bare URL detail imports and is
   * published as `{ src: url }`, as the location page shows it; the rest of
   * the import (ImportThenPublish) holds for this evaluation unchanged.
   */
  lemma BareUrlPublished(url: string, numeral: int -> string)
    requires url != ""
    ensures DetailImportable(JString(url), NormalisedColumns(numeral))
    ensures DetailShape(JString(url), NormalisedColumns(numeral)) == PublicDetail(url, None, None)
  {
    BareUrlDetailKeepsSrc(url, numeral);
  }

  lemma PublishedImport(items: seq<Json>, low: int, cols: Columns, locations: seq<Location>, photos: seq<Photo>)
    requires locations == Numbered(ItemLocations(items, cols), low)
    requires GroupsListed(photos, low, ItemPhotos(items, low, cols))
    ensures PublicLocations(locations, photos) == seq(|items|, i requires 0 <= i < |items| => ItemShape(items[i], cols))
  {
    assert Lists(locations, ItemLocations(items, cols));
    ListsAreListed(locations, ItemLocations(items, cols));
    forall i | 0 <= i < |items|
      ensures PublicLocationOf(locations[i], photos) == ItemShape(items[i], cols)
    {
      PublishedAt(items, low, cols, locations, photos, i);
    }
  }

  lemma PublishedAt(items: seq<Json>, low: int, cols: Columns, locations: seq<Location>, photos: seq<Photo>, i: int)
    requires 0 <= i < |items|
    requires locations == Numbered(ItemLocations(items, cols), low)
    requires GroupsListed(photos, low, ItemPhotos(items, low, cols))
    ensures PublicLocationOf(locations[i], photos) == ItemShape(items[i], cols)
  {
    ItemLocationsAt(items, cols, i);
    ItemPhotosAt(items, low, cols, i);
    assert locations[i] == Row(low + 1 + i, i, ItemLocation(items[i], cols));
    PublishedItem(items[i], low + 1 + i, i, cols, photos);
  }

  lemma PublishedItem(item: Json, id: int, idx: int, cols: Columns, photos: seq<Photo>)
    requires Lists(PhotosOf(photos, id), DetailFieldsOf(Details(item), id, cols))
    ensures PublicLocationOf(Row(id, idx, ItemLocation(item, cols)), photos) == ItemShape(item, cols)
  {
    var q := PhotosOf(photos, id);
    var ds := Details(item);
    assert ListPhotos(photos, id) == q by {
      ListsAreListed(q, DetailFieldsOf(ds, id, cols));
    }
    PublishedDetails(q, ds, id, cols);
  }

  lemma PublishedDetails(q: seq<Photo>, ds: seq<Json>, id: int, cols: Columns)
    requires Lists(q, DetailFieldsOf(ds, id, cols))
    ensures seq(|q|, j requires 0 <= j < |q| => PublicDetailOf(q[j])) ==
            seq(|ds|, j requires 0 <= j < |ds| => DetailShape(ds[j], cols))
  {
    forall j | 0 <= j < |q| ensures PublicDetailOf(q[j]) == DetailShape(ds[j], cols) {
      DetailFieldsOfAt(ds, id, cols, j);
      assert q[j].fields == DetailFields(ds[j], id, cols);
    }
  }
}
