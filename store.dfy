/**
 * The SQLite store of lib/db.js as in-memory tables: `locations`, `photos`
 * and `admins`, each with its AUTOINCREMENT counter, the foreign key from
 * photos to locations with ON DELETE CASCADE, and the prepared statements
 * and queries built on them.
 */
module Store {
  import opened Wrappers
  import opened Rows
  import Json

  datatype LocationFields = LocationFields(title: string, cover: string)
  datatype PhotoFields = PhotoFields(locationId: int, url: string, title: string, desc: string)
  type Location = Row<LocationFields>
  type Photo = Row<PhotoFields>
  datatype Admin = Admin(id: int, username: string, passwordHash: string)

  /** A row of `getAllLocations`: the location's columns plus `photo_count`. */
  datatype LocationSummary = LocationSummary(location: Location, photoCount: nat)

  /** `{ src, title?, desc? }`: a key is absent when the stored value is empty. */
  datatype PublicDetail = PublicDetail(src: string, title: Option<string>, desc: Option<string>)
  datatype PublicLocation = PublicLocation(src: string, title: string, details: seq<PublicDetail>)

  /** The `fields` argument of `updateLocation`/`updatePhoto`: `None` is an `undefined` key. */
  datatype LocationPatch = LocationPatch(title: Option<string>, cover: Option<string>, sortOrder: Option<int>)
  datatype PhotoPatch = PhotoPatch(title: Option<string>, desc: Option<string>, url: Option<string>, sortOrder: Option<int>)

  /** One `column = ?` entry of an UPDATE statement together with its bound value. */
  datatype LocationAssignment = LocTitle(title: string) | LocCover(cover: string) | LocOrder(order: int)
  datatype PhotoAssignment = PhotoTitle(title: string) | PhotoDesc(desc: string) | PhotoUrl(url: string) | PhotoOrder(order: int)

  // ----- Binding the arguments of `stmt.run(...)` (better-sqlite3) -----

  /** A value better-sqlite3 binds to one parameter: a number, a string or `null`. */
  predicate IsScalar(v: Json.Json) {
    v.JNull? || v.JNumber? || v.JString?
  }

  /** Every element is a scalar. */
  predicate OnlyScalars(s: seq<Json.Json>) {
    s == [] || (IsScalar(s[0]) && OnlyScalars(s[1..]))
  }

  lemma {:induction false} OnlyScalarsAll(s: seq<Json.Json>)
    ensures OnlyScalars(s) <==> forall i :: 0 <= i < |s| ==> IsScalar(s[i])
  {
    if s != [] {
      OnlyScalarsAll(s[1..]);
      assert forall i :: 1 <= i < |s| ==> s[i] == s[1..][i - 1];
    }
  }

  /**
   * The values one argument of `stmt.run(...)` supplies to the statement's
   * anonymous `?` parameters: a scalar supplies itself and an array its
   * elements; a plain object holds named parameters, which the statements
   * of lib/db.js and lib/migrate.js do not have, so it supplies none.
   * `None`: binding throws (a boolean, or an array element that is not a
   * scalar).
   */
  function Spread(v: Json.Json): (r: Option<seq<Json.Json>>)
    ensures IsScalar(v) ==> r == Some([v])
  {
    match v
    case JBool(_) => None
    case JArray(elems) => if OnlyScalars(elems) then Some(elems) else None
    case JObject(_) => Some([])
    case _ => Some([v])
  }

  /** Every argument spread, in order; `None` when one of them throws. */
  function SpreadAll(args: seq<Json.Json>): (r: Option<seq<Json.Json>>)
  {
    if args == [] then Some([])
    else
      var rest := SpreadAll(args[1..]);
      match Spread(args[0])
      case None => None
      case Some(a) => if rest.None? then None else Some(a + rest.value)
  }

  /** Every value one argument supplies is a scalar. */
  lemma SpreadScalarValues(v: Json.Json)
    ensures Spread(v).Some? ==> forall i :: 0 <= i < |Spread(v).value| ==> IsScalar(Spread(v).value[i])
  {
    if v.JArray? {
      OnlyScalarsAll(v.elems);
    }
  }

  /** Every value spread is a scalar. */
  lemma {:induction false} SpreadAllScalarValues(args: seq<Json.Json>)
    ensures SpreadAll(args).Some? ==> forall i :: 0 <= i < |SpreadAll(args).value| ==> IsScalar(SpreadAll(args).value[i])
  {
    if args != [] {
      SpreadAllScalarValues(args[1..]);
      SpreadScalarValues(args[0]);
    }
  }

  /** One argument throws exactly when it is a boolean or an array holding a non-scalar. */
  lemma SpreadFails(v: Json.Json)
    ensures Spread(v).None? <==> v.JBool? || (v.JArray? && exists i :: 0 <= i < |v.elems| && !IsScalar(v.elems[i]))
  {
    if v.JArray? {
      OnlyScalarsAll(v.elems);
    }
  }

  /** The arguments throw while spreading exactly when one of them does. */
  lemma {:induction false} SpreadAllFails(args: seq<Json.Json>)
    ensures SpreadAll(args).None? <==> exists i :: 0 <= i < |args| && Spread(args[i]).None?
  {
    if args != [] {
      SpreadAllFails(args[1..]);
      assert forall i :: 1 <= i < |args| ==> args[i] == args[1..][i - 1];
    }
  }

  /** How many arguments are plain objects (named-parameter objects). */
  function ObjectCount(args: seq<Json.Json>): nat {
    if args == [] then 0 else (if args[0].JObject? then 1 else 0) + ObjectCount(args[1..])
  }

  /**
   * `stmt.run(...args)` on a statement with `count` anonymous parameters:
   * the values bound, one per parameter, or `None` when it throws: an
   * argument cannot be bound, two arguments are named-parameter objects,
   * or the arguments supply a number of values other than `count`.
   */
  function Bind(args: seq<Json.Json>, count: nat): (r: Option<seq<Json.Json>>)
    ensures r.Some? ==> |r.value| == count && forall i :: 0 <= i < count ==> IsScalar(r.value[i])
  {
    SpreadAllScalarValues(args);
    if ObjectCount(args) > 1 then None
    else
      match SpreadAll(args)
      case None => None
      case Some(vs) => if |vs| == count then Some(vs) else None
  }

  /** Scalar arguments bind as themselves, exactly when there is one per parameter. */
  lemma {:induction false} BindScalars(args: seq<Json.Json>, count: nat)
    requires forall i :: 0 <= i < |args| ==> IsScalar(args[i])
    ensures Bind(args, count) == if |args| == count then Some(args) else None
  {
    SpreadAllScalars(args);
    ObjectCountScalars(args);
  }

  lemma {:induction false} SpreadAllScalars(args: seq<Json.Json>)
    requires forall i :: 0 <= i < |args| ==> IsScalar(args[i])
    ensures SpreadAll(args) == Some(args)
  {
    if args != [] {
      SpreadAllScalars(args[1..]);
      assert [args[0]] + args[1..] == args;
    }
  }

  lemma {:induction false} ObjectCountScalars(args: seq<Json.Json>)
    requires forall i :: 0 <= i < |args| ==> IsScalar(args[i])
    ensures ObjectCount(args) == 0
  {
    if args != [] {
      ObjectCountScalars(args[1..]);
    }
  }

  /** A scalar argument ahead of the others takes the first parameter; the others bind as they would alone. */
  lemma BindConsScalar(x: Json.Json, args: seq<Json.Json>, count: nat)
    requires IsScalar(x)
    ensures Bind([x] + args, count + 1) == match Bind(args, count) case None => None case Some(vs) => Some([x] + vs)
  {
    var all := [x] + args;
    assert all[0] == x && all[1..] == args;
    assert ObjectCount(all) == ObjectCount(args);
  }

  /** A scalar argument after the others takes the last parameter; the others bind as they would alone. */
  lemma BindSnocScalar(args: seq<Json.Json>, y: Json.Json, count: nat)
    requires IsScalar(y)
    ensures Bind(args + [y], count + 1) == match Bind(args, count) case None => None case Some(vs) => Some(vs + [y])
  {
    SpreadAllSnoc(args, y);
    ObjectCountSnoc(args, y);
  }

  /**
   * A scalar argument before and one after the others take the first and
   * the last parameter: whether the statement throws, and what the others
   * bind, depends on the others alone.
   */
  lemma BindBetweenScalars(x: Json.Json, args: seq<Json.Json>, y: Json.Json, count: nat)
    requires IsScalar(x) && IsScalar(y)
    ensures Bind([x] + args + [y], count + 2) ==
      match Bind(args, count)
      case None => None
      case Some(vs) => Some([x] + vs + [y])
  {
    BindSnocScalar(args, y, count);
    BindConsScalar(x, args + [y], count + 1);
    assert [x] + args + [y] == [x] + (args + [y]);
    if Bind(args, count).Some? {
      var vs := Bind(args, count).value;
      assert [x] + (vs + [y]) == [x] + vs + [y];
    }
  }

  /** A statement with one parameter binds a scalar, or the element of a one-element array of a scalar. */
  lemma BindOne(v: Json.Json)
    ensures Bind([v], 1) ==
      if IsScalar(v) then Some([v])
      else if v.JArray? && |v.elems| == 1 && IsScalar(v.elems[0]) then Some(v.elems)
      else None
  {
    if v.JArray? {
      OnlyScalarsAll(v.elems);
    }
    assert [v][1..] == [];
    assert ObjectCount([v][1..]) == 0;
    assert ObjectCount([v]) <= 1;
    match Spread(v)
    case None =>
    case Some(a) =>
      assert SpreadAll([v][1..]) == Some([]);
      assert SpreadAll([v]) == Some(a + []);
      assert a + [] == a;
      if v.JArray? {
        assert a == v.elems;
      }
  }

  /** An argument wrapped in a one-element array binds exactly as the argument itself. */
  lemma BindSingletonArray(args: seq<Json.Json>, i: int, count: nat)
    requires 0 <= i < |args| && IsScalar(args[i])
    ensures Bind(args[i := Json.JArray([args[i]])], count) == Bind(args, count)
  {
    SpreadAllSingleton(args, i);
    ObjectCountSingleton(args, i);
  }

  lemma {:induction false} SpreadAllSingleton(args: seq<Json.Json>, i: int)
    requires 0 <= i < |args| && IsScalar(args[i])
    ensures SpreadAll(args[i := Json.JArray([args[i]])]) == SpreadAll(args)
  {
    var wrapped := args[i := Json.JArray([args[i]])];
    assert Spread(Json.JArray([args[i]])) == Spread(args[i]);
    if i > 0 {
      assert wrapped[1..] == args[1..][i - 1 := Json.JArray([args[i]])];
      SpreadAllSingleton(args[1..], i - 1);
    } else {
      assert wrapped[1..] == args[1..];
    }
  }

  lemma {:induction false} ObjectCountSingleton(args: seq<Json.Json>, i: int)
    requires 0 <= i < |args| && IsScalar(args[i])
    ensures ObjectCount(args[i := Json.JArray([args[i]])]) == ObjectCount(args)
  {
    var wrapped := args[i := Json.JArray([args[i]])];
    if i > 0 {
      assert wrapped[1..] == args[1..][i - 1 := Json.JArray([args[i]])];
      ObjectCountSingleton(args[1..], i - 1);
    } else {
      assert wrapped[1..] == args[1..];
    }
  }

  lemma {:induction false} SpreadAllSnoc(args: seq<Json.Json>, y: Json.Json)
    requires IsScalar(y)
    ensures SpreadAll(args + [y]) == match SpreadAll(args) case None => None case Some(vs) => Some(vs + [y])
  {
    if args == [] {
      assert args + [y] == [y];
      assert [y][1..] == [];
      assert Spread(y) == Some([y]);
      assert SpreadAll([y][1..]) == Some([]);
      assert SpreadAll([y]) == Some([y] + []);
      assert SpreadAll(args) == Some([]);
      var e: seq<Json.Json> := [];
      assert e + [y] == [y] + e;
    } else {
      var all := args + [y];
      assert all[0] == args[0] && all[1..] == args[1..] + [y];
      SpreadAllSnoc(args[1..], y);
      match Spread(args[0])
      case None =>
      case Some(a) =>
        if SpreadAll(args[1..]).Some? {
          var vs := SpreadAll(args[1..]).value;
          assert SpreadAll(all) == Some(a + (vs + [y]));
          assert a + (vs + [y]) == (a + vs) + [y];
        }
    }
  }

  lemma {:induction false} ObjectCountSnoc(args: seq<Json.Json>, y: Json.Json)
    requires IsScalar(y)
    ensures ObjectCount(args + [y]) == ObjectCount(args)
  {
    if args == [] {
      assert args + [y] == [y];
      assert [y][1..] == [];
    } else {
      assert (args + [y])[1..] == args[1..] + [y];
      ObjectCountSnoc(args[1..], y);
    }
  }

  /**
   * The text a TEXT column holds for a bound value: a string as it is, a
   * number as SQLite writes it (`numeral(n)`); `null` (NULL) is `None`.
   */
  function ColumnText(v: Json.Json, numeral: int -> string): (r: Option<string>)
    ensures r.None? <==> !v.JString? && !v.JNumber?
    ensures v.JString? ==> r == Some(v.s)
    ensures v.JNumber? ==> r == Some(numeral(v.n))
  {
    match v
    case JString(s) => Some(s)
    case JNumber(n) => Some(numeral(n))
    case _ => None
  }

  /**
   * The text a nullable TEXT column (`photos.title`, `photos.desc`) holds
   * for a bound value; NULL is modelled as `''`, which the public listing
   * treats alike (both are falsy in `if (p.title)`).
   */
  function NullableText(v: Json.Json, numeral: int -> string): (r: string)
    requires IsScalar(v)
    ensures Some(r) == ColumnText(v, numeral) || (v.JNull? && r == "")
  {
    ColumnText(v, numeral).GetOr("")
  }

  // ----- Queries -----

  /** `... FROM photos WHERE location_id = ?`, in stored (rowid) order. */
  function PhotosOf(photos: seq<Photo>, locationId: int): (r: seq<Photo>)
    ensures |r| <= |photos|
    decreases |photos|
  {
    if photos == [] then []
    else
      var r := PhotosOf(photos[..|photos| - 1], locationId);
      if photos[|photos| - 1].fields.locationId == locationId then r + [photos[|photos| - 1]] else r
  }

  /** Only photos of the location are selected. */
  lemma {:induction false} PhotosOfSound(photos: seq<Photo>, locationId: int)
    ensures forall k :: 0 <= k < |PhotosOf(photos, locationId)| ==>
      PhotosOf(photos, locationId)[k] in photos && PhotosOf(photos, locationId)[k].fields.locationId == locationId
    decreases |photos|
  {
    if photos != [] {
      var init := photos[..|photos| - 1];
      PhotosOfSound(init, locationId);
      var r := PhotosOf(init, locationId);
      forall k | 0 <= k < |r| ensures r[k] in photos {
        var j :| 0 <= j < |init| && init[j] == r[k];
        assert photos[j] == r[k];
      }
    }
  }

  /** The selection keeps rowid order. */
  lemma {:induction false} PhotosOfIncreasing(photos: seq<Photo>, locationId: int)
    requires IdsIncreasing(photos)
    ensures IdsIncreasing(PhotosOf(photos, locationId))
    decreases |photos|
  {
    if photos != [] {
      var init := photos[..|photos| - 1];
      var last := photos[|photos| - 1];
      assert IdsIncreasing(init) by {
        assert forall k :: 0 <= k < |init| ==> init[k] == photos[k];
      }
      PhotosOfIncreasing(init, locationId);
      PhotosOfSound(init, locationId);
      var r := PhotosOf(init, locationId);
      forall k | 0 <= k < |r| ensures r[k].id < last.id {
        var j :| 0 <= j < |init| && init[j] == r[k];
        assert photos[j] == r[k];
      }
    }
  }

  /** The photos that survive `ON DELETE CASCADE` of location `locationId`. */
  function PhotosOutside(photos: seq<Photo>, locationId: int): (r: seq<Photo>)
    ensures forall k :: 0 <= k < |r| ==> r[k] in photos && r[k].fields.locationId != locationId
    ensures forall k :: 0 <= k < |photos| && photos[k].fields.locationId != locationId ==> photos[k] in r
    ensures IdsIncreasing(photos) ==> IdsIncreasing(r)
    decreases |photos|
  {
    if photos == [] then []
    else
      var init := photos[..|photos| - 1];
      var last := photos[|photos| - 1];
      var r := PhotosOutside(init, locationId);
      assert forall k :: 0 <= k < |init| ==> init[k] == photos[k];
      assert IdsIncreasing(photos) ==> forall k :: 0 <= k < |r| ==> r[k].id < last.id;
      if last.fields.locationId != locationId then r + [last] else r
  }

  /** `getPhotos`: the photos of one location, `ORDER BY sort_order ASC, id ASC`. */
  function ListPhotos(photos: seq<Photo>, locationId: int): (r: seq<Photo>)
    ensures Ordered(r)
    ensures forall k :: 0 <= k < |r| ==> r[k] in photos && r[k].fields.locationId == locationId
    ensures forall k :: 0 <= k < |photos| && photos[k].fields.locationId == locationId ==> photos[k] in r
  {
    var mine := PhotosOf(photos, locationId);
    var r := SortByOrder(mine);
    PhotosOfSound(photos, locationId);
    forall k | 0 <= k < |r| ensures r[k] in mine {
      assert r[k] in multiset(mine);
    }
    forall k | 0 <= k < |mine| ensures mine[k] in r {
      assert mine[k] in multiset(r);
    }
    forall k | 0 <= k < |photos| && photos[k].fields.locationId == locationId ensures photos[k] in r {
      PhotosOfComplete(photos, locationId, k);
    }
    r
  }

  /** `getPhotoIdsByLocation`: the ids of one location's photos. */
  function PhotoIdsByLocation(photos: seq<Photo>, locationId: int): (r: seq<int>)
    ensures forall k :: 0 <= k < |photos| && photos[k].fields.locationId == locationId ==> photos[k].id in r
    ensures forall x :: x in r ==> exists k :: 0 <= k < |photos| && photos[k].id == x && photos[k].fields.locationId == locationId
  {
    var mine := PhotosOf(photos, locationId);
    var r := seq(|mine|, i requires 0 <= i < |mine| => mine[i].id);
    forall k | 0 <= k < |photos| && photos[k].fields.locationId == locationId ensures photos[k].id in r {
      PhotosOfComplete(photos, locationId, k);
      var i :| 0 <= i < |mine| && mine[i] == photos[k];
      assert r[i] == photos[k].id;
    }
    forall x | x in r
      ensures exists k :: 0 <= k < |photos| && photos[k].id == x && photos[k].fields.locationId == locationId
    {
      var i :| 0 <= i < |r| && r[i] == x;
      PhotosOfSound(photos, locationId);
      var k :| 0 <= k < |photos| && photos[k] == mine[i];
    }
    r
  }

  /** Every photo of the location is selected. */
  lemma {:induction false} PhotosOfComplete(photos: seq<Photo>, locationId: int, k: int)
    requires 0 <= k < |photos| && photos[k].fields.locationId == locationId
    ensures photos[k] in PhotosOf(photos, locationId)
    decreases |photos|
  {
    var init := photos[..|photos| - 1];
    if k < |photos| - 1 {
      assert init[k] == photos[k];
      PhotosOfComplete(init, locationId, k);
    }
  }

  /** `getAllLocations`: every location once, in listing order, with its photo count. */
  function AllLocations(locations: seq<Location>, photos: seq<Photo>): (r: seq<LocationSummary>)
    ensures |r| == |locations|
    ensures Ordered(Summarized(r))
    ensures multiset(Summarized(r)) == multiset(locations)
    ensures forall i :: 0 <= i < |r| ==> r[i].photoCount == |PhotosOf(photos, r[i].location.id)|
  {
    var listed := SortByOrder(locations);
    var r := seq(|listed|, i requires 0 <= i < |listed| =>
      LocationSummary(listed[i], |PhotosOf(photos, listed[i].id)|));
    assert Summarized(r) == listed;
    r
  }

  function Summarized(r: seq<LocationSummary>): (s: seq<Location>)
    ensures |s| == |r| && forall i :: 0 <= i < |r| ==> s[i] == r[i].location
  {
    seq(|r|, i requires 0 <= i < |r| => r[i].location)
  }

  /** `if (v) obj.key = v`: an empty column leaves the key out. */
  function NonEmpty(s: string): (r: Option<string>)
    ensures r.Some? <==> s != ""
    ensures r.Some? ==> r.value == s
  {
    if s != "" then Some(s) else None
  }

  function PublicDetailOf(p: Photo): (d: PublicDetail)
    ensures d.src == p.fields.url
    ensures d.title.Some? <==> p.fields.title != ""
    ensures d.desc.Some? <==> p.fields.desc != ""
    ensures d.title.Some? ==> d.title.value == p.fields.title
    ensures d.desc.Some? ==> d.desc.value == p.fields.desc
  {
    PublicDetail(p.fields.url, NonEmpty(p.fields.title), NonEmpty(p.fields.desc))
  }

  function PublicLocationOf(loc: Location, photos: seq<Photo>): (r: PublicLocation)
    ensures r.src == loc.fields.cover && r.title == loc.fields.title
    ensures |r.details| == |ListPhotos(photos, loc.id)|
    ensures forall j :: 0 <= j < |r.details| ==> r.details[j].src == ListPhotos(photos, loc.id)[j].fields.url
  {
    var ps := ListPhotos(photos, loc.id);
    PublicLocation(loc.fields.cover, loc.fields.title,
      seq(|ps|, j requires 0 <= j < |ps| => PublicDetailOf(ps[j])))
  }

  /** `getLocationsForPublic`: the legacy JSON shape, one entry per listed location. */
  function PublicLocations(locations: seq<Location>, photos: seq<Photo>): (r: seq<PublicLocation>)
    ensures |r| == |locations|
  {
    var listed := SortByOrder(locations);
    seq(|listed|, i requires 0 <= i < |listed| => PublicLocationOf(listed[i], photos))
  }

  /** `getLocationForPublic(index)`: `null` outside `[0, count)`. */
  function PublicLocationAt(locations: seq<Location>, photos: seq<Photo>, index: int): (r: Option<PublicLocation>)
    ensures r.None? <==> index < 0 || index >= |locations|
    ensures r.Some? ==> r.value == PublicLocations(locations, photos)[index]
  {
    var listed := SortByOrder(locations);
    if index < 0 || index >= |listed| then None
    else Some(PublicLocationOf(listed[index], photos))
  }

  /** `getAdminByUsername`. */
  function AdminByUsername(admins: seq<Admin>, username: string): (r: Option<Admin>)
    ensures r.None? <==> forall k :: 0 <= k < |admins| ==> admins[k].username != username
    ensures r.Some? ==> r.value in admins && r.value.username == username
  {
    if admins == [] then None
    else if admins[0].username == username then Some(admins[0])
    else
      var r := AdminByUsername(admins[1..], username);
      assert forall k :: 1 <= k < |admins| ==> admins[k] == admins[1..][k - 1];
      r
  }

  // ----- Table invariants -----

  /** The two content tables with their AUTOINCREMENT counters (`sqlite_sequence`). */
  datatype Tables = Tables(locations: seq<Location>, photos: seq<Photo>, locationSeq: int, photoSeq: int)

  /** Ids ascend in rowid order and never exceed the counter; every photo's location exists. */
  predicate TablesValid(t: Tables) {
    IdsIncreasing(t.locations) && IdsAtMost(t.locations, t.locationSeq) &&
    IdsIncreasing(t.photos) && IdsAtMost(t.photos, t.photoSeq) &&
    PhotosHaveLocations(t.locations, t.photos)
  }

  predicate AdminIdsIncreasing(admins: seq<Admin>) {
    forall i, j :: 0 <= i < j < |admins| ==> admins[i].id < admins[j].id
  }

  /** `username TEXT NOT NULL UNIQUE`. */
  predicate UsernamesDistinct(admins: seq<Admin>) {
    forall i, j :: 0 <= i < j < |admins| ==> admins[i].username != admins[j].username
  }

  /** `FOREIGN KEY (location_id) REFERENCES locations(id)`. */
  predicate PhotosHaveLocations(locations: seq<Location>, photos: seq<Photo>) {
    forall k :: 0 <= k < |photos| ==> FindById(locations, photos[k].fields.locationId).Some?
  }

  function ApplyLocation(row: Location, a: LocationAssignment): Location {
    match a
    case LocTitle(t) => row.(fields := row.fields.(title := t))
    case LocCover(c) => row.(fields := row.fields.(cover := c))
    case LocOrder(n) => row.(sortOrder := n)
  }

  /** The `SET` list applied left to right. */
  function AssignLocation(row: Location, sets: seq<LocationAssignment>): Location
    decreases |sets|
  {
    if sets == [] then row else ApplyLocation(AssignLocation(row, sets[..|sets| - 1]), sets[|sets| - 1])
  }

  function ApplyPhoto(row: Photo, a: PhotoAssignment): Photo {
    match a
    case PhotoTitle(t) => row.(fields := row.fields.(title := t))
    case PhotoDesc(d) => row.(fields := row.fields.(desc := d))
    case PhotoUrl(u) => row.(fields := row.fields.(url := u))
    case PhotoOrder(n) => row.(sortOrder := n)
  }

  function AssignPhoto(row: Photo, sets: seq<PhotoAssignment>): Photo
    decreases |sets|
  {
    if sets == [] then row else ApplyPhoto(AssignPhoto(row, sets[..|sets| - 1]), sets[|sets| - 1])
  }

  lemma {:induction false} AssignPhotoKeepsKeys(row: Photo, sets: seq<PhotoAssignment>)
    ensures AssignPhoto(row, sets).id == row.id
    ensures AssignPhoto(row, sets).fields.locationId == row.fields.locationId
    decreases |sets|
  {
    if sets != [] {
      AssignPhotoKeepsKeys(row, sets[..|sets| - 1]);
    }
  }

  /** Rewriting photo columns other than `id` and `location_id` keeps the tables valid. */
  lemma SameKeysValid(t: Tables, photos: seq<Photo>)
    requires TablesValid(t) && |photos| == |t.photos|
    requires forall k :: 0 <= k < |photos| ==>
      photos[k].id == t.photos[k].id && photos[k].fields.locationId == t.photos[k].fields.locationId
    ensures TablesValid(t.(photos := photos))
  {
    assert IdsIncreasing(photos) by {
      forall i, j | 0 <= i < j < |photos| ensures photos[i].id < photos[j].id {
        assert t.photos[i].id < t.photos[j].id;
      }
    }
    assert IdsAtMost(photos, t.photoSeq) by {
      forall k | 0 <= k < |photos| ensures photos[k].id <= t.photoSeq {
        assert t.photos[k].id <= t.photoSeq;
      }
    }
    assert PhotosHaveLocations(t.locations, photos) by {
      forall k | 0 <= k < |photos| ensures FindById(t.locations, photos[k].fields.locationId).Some? {
        assert FindById(t.locations, t.photos[k].fields.locationId).Some?;
      }
    }
  }

  // ----- The database -----

  class Database {
    var locations: seq<Location>
    var photos: seq<Photo>
    var admins: seq<Admin>
    /** The `sqlite_sequence` counters: the largest id ever issued per table. */
    var locationSeq: int
    var photoSeq: int
    var adminSeq: int

    ghost predicate Valid()
      reads this
    {
      TablesValid(Snapshot()) &&
      AdminIdsIncreasing(admins) && (forall k :: 0 <= k < |admins| ==> admins[k].id <= adminSeq) &&
      UsernamesDistinct(admins)
    }

    function Snapshot(): Tables
      reads this
    {
      Tables(locations, photos, locationSeq, photoSeq)
    }

    /** `ROLLBACK`: the content tables return to a state saved at `BEGIN`. */
    method Restore(t: Tables)
      requires Valid() && TablesValid(t)
      modifies this
      ensures Valid() && Snapshot() == t
      ensures admins == old(admins) && adminSeq == old(adminSeq)
    {
      locations, photos, locationSeq, photoSeq := t.locations, t.photos, t.locationSeq, t.photoSeq;
    }

    /** A freshly created database file: the three tables, empty. */
    constructor ()
      ensures Valid()
      ensures locations == [] && photos == [] && admins == []
      ensures locationSeq == 0 && photoSeq == 0 && adminSeq == 0
    {
      locations, photos, admins := [], [], [];
      locationSeq, photoSeq, adminSeq := 0, 0, 0;
    }

    /** `INSERT INTO locations (title, cover, sort_order) VALUES (?, ?, ?)`; returns `lastInsertRowid`. */
    method InsertLocation(title: string, cover: string, sortOrder: int) returns (id: int)
      requires Valid()
      modifies this
      ensures Valid()
      ensures id == old(locationSeq) + 1 && locationSeq == id
      ensures locations == old(locations) + [Row(id, sortOrder, LocationFields(title, cover))]
      ensures photos == old(photos) && admins == old(admins)
      ensures photoSeq == old(photoSeq) && adminSeq == old(adminSeq)
    {
      id := locationSeq + 1;
      var row := Row(id, sortOrder, LocationFields(title, cover));
      forall k | 0 <= k < |photos| ensures FindById(locations + [row], photos[k].fields.locationId).Some? {
        FindAfterAppend(locations, row, photos[k].fields.locationId);
      }
      locations := locations + [row];
      locationSeq := id;
    }

    /**
     * `INSERT INTO photos (location_id, url, title, desc, sort_order) VALUES (?, ?, ?, ?, ?)`;
     * `None` when no location has that id (the foreign key rejects the row).
     */
    method InsertPhoto(locationId: int, url: string, title: string, desc: string, sortOrder: int)
      returns (id: Option<int>)
      requires Valid()
      modifies this
      ensures Valid()
      ensures id.None? <==> FindById(old(locations), locationId).None?
      ensures id.Some? ==> (id.value == old(photoSeq) + 1 && photoSeq == id.value &&
                            photos == old(photos) + [Row(id.value, sortOrder, PhotoFields(locationId, url, title, desc))])
      ensures id.None? ==> photos == old(photos) && photoSeq == old(photoSeq)
      ensures locations == old(locations) && admins == old(admins)
      ensures locationSeq == old(locationSeq) && adminSeq == old(adminSeq)
    {
      if FindById(locations, locationId).None? {
        return None;
      }
      var n := photoSeq + 1;
      photos := photos + [Row(n, sortOrder, PhotoFields(locationId, url, title, desc))];
      photoSeq := n;
      id := Some(n);
    }

    /** `createLocation`: appended after every existing location (`MAX(sort_order) + 1`, or 0). */
    method CreateLocation(title: string, cover: string) returns (id: int)
      requires Valid()
      modifies this
      ensures Valid()
      ensures id == old(locationSeq) + 1
      ensures forall k :: 0 <= k < |old(locations)| ==> old(locations)[k].id < id
      ensures locations == old(locations) + [Row(id, NextOrder(old(locations)), LocationFields(title, cover))]
      ensures photos == old(photos) && admins == old(admins)
      ensures photoSeq == old(photoSeq) && adminSeq == old(adminSeq)
    {
      var order := NextOrder(locations);
      id := InsertLocation(title, cover, order);
    }

    /**
     * `createPhoto`: appended after the photos of the same location only; a
     * missing title or desc is stored as `''`.
     */
    method CreatePhoto(locationId: int, url: string, title: Option<string>, desc: Option<string>)
      returns (id: Option<int>)
      requires Valid()
      modifies this
      ensures Valid()
      ensures id.None? <==> FindById(old(locations), locationId).None?
      ensures id.Some? ==> (id.value == old(photoSeq) + 1 && photoSeq == id.value &&
                            photos == old(photos) + [Row(id.value, NextOrder(PhotosOf(old(photos), locationId)),
                                                         PhotoFields(locationId, url, title.GetOr(""), desc.GetOr("")))])
      ensures id.None? ==> photos == old(photos)
      ensures locations == old(locations) && admins == old(admins)
      ensures locationSeq == old(locationSeq) && adminSeq == old(adminSeq)
    {
      var order := NextOrder(PhotosOf(photos, locationId));
      id := InsertPhoto(locationId, url, title.GetOr(""), desc.GetOr(""), order);
    }

    /**
     * `updateLocation`: one `column = ?` per supplied field, applied to the
     * row with that id; with no field supplied no statement runs.
     */
    method UpdateLocation(id: int, patch: LocationPatch)
      requires Valid()
      modifies this
      ensures Valid()
      ensures |locations| == |old(locations)|
      ensures forall k :: 0 <= k < |locations| && old(locations)[k].id != id ==> locations[k] == old(locations)[k]
      ensures forall k :: 0 <= k < |locations| && old(locations)[k].id == id ==>
        locations[k] == Row(id, patch.sortOrder.GetOr(old(locations)[k].sortOrder),
          LocationFields(patch.title.GetOr(old(locations)[k].fields.title), patch.cover.GetOr(old(locations)[k].fields.cover)))
      ensures photos == old(photos) && admins == old(admins)
      ensures locationSeq == old(locationSeq) && photoSeq == old(photoSeq) && adminSeq == old(adminSeq)
    {
      var sets: seq<LocationAssignment> := [];
      if patch.title.Some? { sets := sets + [LocTitle(patch.title.value)]; }
      if patch.cover.Some? { sets := sets + [LocCover(patch.cover.value)]; }
      if patch.sortOrder.Some? { sets := sets + [LocOrder(patch.sortOrder.value)]; }
      if |sets| == 0 {
        return;
      }
      PatchedLocationsValid(Snapshot(), id, patch, sets);
      locations := PatchedLocations(locations, id, sets);
    }

    /** `updatePhoto`: as `updateLocation`, over title, desc, url and sort_order. */
    method UpdatePhoto(id: int, patch: PhotoPatch)
      requires Valid()
      modifies this
      ensures Valid()
      ensures |photos| == |old(photos)|
      ensures forall k :: 0 <= k < |photos| && old(photos)[k].id != id ==> photos[k] == old(photos)[k]
      ensures forall k :: 0 <= k < |photos| && old(photos)[k].id == id ==>
        photos[k] == Row(id, patch.sortOrder.GetOr(old(photos)[k].sortOrder),
          PhotoFields(old(photos)[k].fields.locationId, patch.url.GetOr(old(photos)[k].fields.url),
            patch.title.GetOr(old(photos)[k].fields.title), patch.desc.GetOr(old(photos)[k].fields.desc)))
      ensures locations == old(locations) && admins == old(admins)
      ensures locationSeq == old(locationSeq) && photoSeq == old(photoSeq) && adminSeq == old(adminSeq)
    {
      var sets: seq<PhotoAssignment> := [];
      if patch.title.Some? { sets := sets + [PhotoTitle(patch.title.value)]; }
      if patch.desc.Some? { sets := sets + [PhotoDesc(patch.desc.value)]; }
      if patch.url.Some? { sets := sets + [PhotoUrl(patch.url.value)]; }
      if patch.sortOrder.Some? { sets := sets + [PhotoOrder(patch.sortOrder.value)]; }
      if |sets| == 0 {
        return;
      }
      PatchedPhotosValid(Snapshot(), id, patch, sets);
      photos := PatchedPhotos(photos, id, sets);
    }

    /** `deleteLocation`, with `ON DELETE CASCADE` removing the location's photos. */
    method DeleteLocation(id: int)
      requires Valid()
      modifies this
      ensures Valid()
      ensures locations == WithoutId(old(locations), id)
      ensures photos == PhotosOutside(old(photos), id)
      ensures admins == old(admins)
      ensures locationSeq == old(locationSeq) && photoSeq == old(photoSeq) && adminSeq == old(adminSeq)
    {
      var remaining := WithoutId(locations, id);
      var kept := PhotosOutside(photos, id);
      CascadeKeepsForeignKey(locations, photos, id);
      IdsAtMostSubset(photos, kept, photoSeq);
      IdsAtMostSubset(locations, remaining, locationSeq);
      WithoutIdIncreasing(locations, id);
      locations := remaining;
      photos := kept;
    }

    /** `deletePhoto`. */
    method DeletePhoto(id: int)
      requires Valid()
      modifies this
      ensures Valid()
      ensures photos == WithoutId(old(photos), id)
      ensures locations == old(locations) && admins == old(admins)
      ensures locationSeq == old(locationSeq) && photoSeq == old(photoSeq) && adminSeq == old(adminSeq)
    {
      var kept := WithoutId(photos, id);
      IdsAtMostSubset(photos, kept, photoSeq);
      WithoutIdIncreasing(photos, id);
      forall k | 0 <= k < |kept| ensures FindById(locations, kept[k].fields.locationId).Some? {
        var j :| 0 <= j < |photos| && photos[j] == kept[k];
      }
      photos := kept;
    }

    /**
     * `updateLocationSort`: `sort_order := index` for each listed id, in one
     * transaction. Binding an unbindable value throws; the transaction then
     * rolls back and the exception reaches the caller (`false` here).
     */
    method UpdateLocationSort(ids: seq<SortParam>) returns (ok: bool)
      requires Valid()
      modifies this
      ensures Valid()
      ensures ok == Bindable(ids)
      ensures locations == if ok then Reordered(old(locations), ids) else old(locations)
      ensures photos == old(photos) && admins == old(admins)
      ensures locationSeq == old(locationSeq) && photoSeq == old(photoSeq) && adminSeq == old(adminSeq)
    {
      var snapshot := locations;
      var i := 0;
      while i < |ids|
        invariant 0 <= i <= |ids|
        invariant Bindable(ids[..i])
        invariant locations == Reordered(snapshot, ids[..i])
        invariant photos == old(photos) && admins == old(admins)
        invariant locationSeq == old(locationSeq) && photoSeq == old(photoSeq) && adminSeq == old(adminSeq)
      {
        if ids[i].Unbindable? {
          locations := snapshot;
          assert !Bindable(ids);
          return false;
        }
        assert ids[..i + 1][..i] == ids[..i];
        locations := SetOrder(locations, ids[i], i);
        i := i + 1;
      }
      assert ids[..i] == ids;
      ok := true;
      forall x | true ensures FindById(snapshot, x).Some? == FindById(locations, x).Some? {
        FindSameIds(snapshot, locations, x);
      }
    }

    /** `updatePhotoSort`: the same rewrite over the whole `photos` table. */
    method UpdatePhotoSort(ids: seq<SortParam>) returns (ok: bool)
      requires Valid()
      modifies this
      ensures Valid()
      ensures ok == Bindable(ids)
      ensures photos == if ok then Reordered(old(photos), ids) else old(photos)
      ensures locations == old(locations) && admins == old(admins)
      ensures locationSeq == old(locationSeq) && photoSeq == old(photoSeq) && adminSeq == old(adminSeq)
    {
      var snapshot := photos;
      var i := 0;
      while i < |ids|
        invariant 0 <= i <= |ids|
        invariant Bindable(ids[..i])
        invariant photos == Reordered(snapshot, ids[..i])
        invariant locations == old(locations) && admins == old(admins)
        invariant locationSeq == old(locationSeq) && photoSeq == old(photoSeq) && adminSeq == old(adminSeq)
      {
        if ids[i].Unbindable? {
          photos := snapshot;
          assert !Bindable(ids);
          return false;
        }
        assert ids[..i + 1][..i] == ids[..i];
        photos := SetOrder(photos, ids[i], i);
        i := i + 1;
      }
      assert ids[..i] == ids;
      ok := true;
    }

    /** `createAdmin`; `None` when the username is taken (the UNIQUE constraint throws). */
    method CreateAdmin(username: string, passwordHash: string) returns (id: Option<int>)
      requires Valid()
      modifies this
      ensures Valid()
      ensures id.None? <==> AdminByUsername(old(admins), username).Some?
      ensures id.Some? ==> (id.value == old(adminSeq) + 1 && adminSeq == id.value &&
                            admins == old(admins) + [Admin(id.value, username, passwordHash)])
      ensures id.None? ==> admins == old(admins) && adminSeq == old(adminSeq)
      ensures locations == old(locations) && photos == old(photos)
      ensures locationSeq == old(locationSeq) && photoSeq == old(photoSeq)
    {
      if AdminByUsername(admins, username).Some? {
        return None;
      }
      var n := adminSeq + 1;
      admins := admins + [Admin(n, username, passwordHash)];
      adminSeq := n;
      id := Some(n);
    }

    /** `updateAdminPassword`: only the row with that username changes. */
    method UpdateAdminPassword(username: string, passwordHash: string)
      requires Valid()
      modifies this
      ensures Valid()
      ensures |admins| == |old(admins)|
      ensures forall k :: 0 <= k < |admins| ==>
        admins[k] == if old(admins)[k].username == username then old(admins)[k].(passwordHash := passwordHash) else old(admins)[k]
      ensures locations == old(locations) && photos == old(photos)
      ensures locationSeq == old(locationSeq) && photoSeq == old(photoSeq) && adminSeq == old(adminSeq)
    {
      var before := admins;
      admins := seq(|before|, k requires 0 <= k < |before| =>
        if before[k].username == username then before[k].(passwordHash := passwordHash) else before[k]);
    }
  }

  // ----- What the store promises -----

  lemma {:induction false} LocationPatchApplied(row: Location, patch: LocationPatch, sets: seq<LocationAssignment>)
    requires sets == (if patch.title.Some? then [LocTitle(patch.title.value)] else []) +
                     (if patch.cover.Some? then [LocCover(patch.cover.value)] else []) +
                     (if patch.sortOrder.Some? then [LocOrder(patch.sortOrder.value)] else [])
    ensures AssignLocation(row, sets) == Row(row.id, patch.sortOrder.GetOr(row.sortOrder),
      LocationFields(patch.title.GetOr(row.fields.title), patch.cover.GetOr(row.fields.cover)))
  {
    var s0: seq<LocationAssignment> := [];
    var s1 := s0 + (if patch.title.Some? then [LocTitle(patch.title.value)] else []);
    var s2 := s1 + (if patch.cover.Some? then [LocCover(patch.cover.value)] else []);
    var s3 := s2 + (if patch.sortOrder.Some? then [LocOrder(patch.sortOrder.value)] else []);
    assert sets == s3;
    AssignLocationMaybe(row, s0, patch.title.Some?, LocTitle(patch.title.GetOr("")));
    AssignLocationMaybe(row, s1, patch.cover.Some?, LocCover(patch.cover.GetOr("")));
    AssignLocationMaybe(row, s2, patch.sortOrder.Some?, LocOrder(patch.sortOrder.GetOr(0)));
  }

  /** The locations after `UPDATE locations SET <sets> WHERE id = ?`. */
  function PatchedLocations(locations: seq<Location>, id: int, sets: seq<LocationAssignment>): (r: seq<Location>)
    ensures |r| == |locations|
  {
    seq(|locations|, k requires 0 <= k < |locations| =>
      if locations[k].id == id then AssignLocation(locations[k], sets) else locations[k])
  }

  /** Patching one location keeps the tables valid and rewrites exactly the supplied columns. */
  lemma PatchedLocationsValid(t: Tables, id: int, patch: LocationPatch, sets: seq<LocationAssignment>)
    requires TablesValid(t)
    requires sets == (if patch.title.Some? then [LocTitle(patch.title.value)] else []) +
                     (if patch.cover.Some? then [LocCover(patch.cover.value)] else []) +
                     (if patch.sortOrder.Some? then [LocOrder(patch.sortOrder.value)] else [])
    ensures TablesValid(t.(locations := PatchedLocations(t.locations, id, sets)))
    ensures forall k :: 0 <= k < |t.locations| && t.locations[k].id != id ==>
      PatchedLocations(t.locations, id, sets)[k] == t.locations[k]
    ensures forall k :: 0 <= k < |t.locations| && t.locations[k].id == id ==>
      PatchedLocations(t.locations, id, sets)[k] == Row(id, patch.sortOrder.GetOr(t.locations[k].sortOrder),
        LocationFields(patch.title.GetOr(t.locations[k].fields.title), patch.cover.GetOr(t.locations[k].fields.cover)))
  {
    var before := t.locations;
    var after := PatchedLocations(before, id, sets);
    forall k | 0 <= k < |before| && before[k].id == id
      ensures after[k] == Row(id, patch.sortOrder.GetOr(before[k].sortOrder),
        LocationFields(patch.title.GetOr(before[k].fields.title), patch.cover.GetOr(before[k].fields.cover)))
    {
      LocationPatchApplied(before[k], patch, sets);
    }
    assert forall k :: 0 <= k < |before| ==> after[k].id == before[k].id;
    assert IdsIncreasing(after) by {
      forall i, j | 0 <= i < j < |after| ensures after[i].id < after[j].id {
        assert before[i].id < before[j].id;
      }
    }
    forall x | true ensures FindById(before, x).Some? == FindById(after, x).Some? {
      FindSameIds(before, after, x);
    }
  }

  /** One optional assignment more at the end of the `SET` list. */
  lemma AssignLocationMaybe(row: Location, sets: seq<LocationAssignment>, present: bool, a: LocationAssignment)
    ensures AssignLocation(row, sets + (if present then [a] else [])) ==
      if present then ApplyLocation(AssignLocation(row, sets), a) else AssignLocation(row, sets)
  {
    var s := sets + (if present then [a] else []);
    if present {
      assert s[..|s| - 1] == sets;
    } else {
      assert s == sets;
    }
  }


  lemma {:induction false} PhotoPatchApplied(row: Photo, patch: PhotoPatch, sets: seq<PhotoAssignment>)
    requires sets == (if patch.title.Some? then [PhotoTitle(patch.title.value)] else []) +
                     (if patch.desc.Some? then [PhotoDesc(patch.desc.value)] else []) +
                     (if patch.url.Some? then [PhotoUrl(patch.url.value)] else []) +
                     (if patch.sortOrder.Some? then [PhotoOrder(patch.sortOrder.value)] else [])
    ensures AssignPhoto(row, sets) == Row(row.id, patch.sortOrder.GetOr(row.sortOrder),
      PhotoFields(row.fields.locationId, patch.url.GetOr(row.fields.url),
        patch.title.GetOr(row.fields.title), patch.desc.GetOr(row.fields.desc)))
  {
    var s0: seq<PhotoAssignment> := [];
    var s1 := s0 + (if patch.title.Some? then [PhotoTitle(patch.title.value)] else []);
    var s2 := s1 + (if patch.desc.Some? then [PhotoDesc(patch.desc.value)] else []);
    var s3 := s2 + (if patch.url.Some? then [PhotoUrl(patch.url.value)] else []);
    var s4 := s3 + (if patch.sortOrder.Some? then [PhotoOrder(patch.sortOrder.value)] else []);
    assert sets == s4;
    AssignPhotoMaybe(row, s0, patch.title.Some?, PhotoTitle(patch.title.GetOr("")));
    AssignPhotoMaybe(row, s1, patch.desc.Some?, PhotoDesc(patch.desc.GetOr("")));
    AssignPhotoMaybe(row, s2, patch.url.Some?, PhotoUrl(patch.url.GetOr("")));
    AssignPhotoMaybe(row, s3, patch.sortOrder.Some?, PhotoOrder(patch.sortOrder.GetOr(0)));
  }

  /** The photos after `UPDATE photos SET <sets> WHERE id = ?`. */
  function PatchedPhotos(photos: seq<Photo>, id: int, sets: seq<PhotoAssignment>): (r: seq<Photo>)
    ensures |r| == |photos|
  {
    seq(|photos|, k requires 0 <= k < |photos| =>
      if photos[k].id == id then AssignPhoto(photos[k], sets) else photos[k])
  }

  /** Patching one photo keeps the tables valid and rewrites exactly the supplied columns. */
  lemma PatchedPhotosValid(t: Tables, id: int, patch: PhotoPatch, sets: seq<PhotoAssignment>)
    requires TablesValid(t)
    requires sets == (if patch.title.Some? then [PhotoTitle(patch.title.value)] else []) +
                     (if patch.desc.Some? then [PhotoDesc(patch.desc.value)] else []) +
                     (if patch.url.Some? then [PhotoUrl(patch.url.value)] else []) +
                     (if patch.sortOrder.Some? then [PhotoOrder(patch.sortOrder.value)] else [])
    ensures TablesValid(t.(photos := PatchedPhotos(t.photos, id, sets)))
    ensures forall k :: 0 <= k < |t.photos| && t.photos[k].id != id ==> PatchedPhotos(t.photos, id, sets)[k] == t.photos[k]
    ensures forall k :: 0 <= k < |t.photos| && t.photos[k].id == id ==>
      PatchedPhotos(t.photos, id, sets)[k] == Row(id, patch.sortOrder.GetOr(t.photos[k].sortOrder),
        PhotoFields(t.photos[k].fields.locationId, patch.url.GetOr(t.photos[k].fields.url),
          patch.title.GetOr(t.photos[k].fields.title), patch.desc.GetOr(t.photos[k].fields.desc)))
  {
    var before := t.photos;
    var after := PatchedPhotos(before, id, sets);
    forall k | 0 <= k < |before| && before[k].id == id
      ensures after[k].id == before[k].id && after[k].fields.locationId == before[k].fields.locationId
    {
      AssignPhotoKeepsKeys(before[k], sets);
    }
    SameKeysValid(t, after);
    forall k | 0 <= k < |before| && before[k].id == id
      ensures after[k] == Row(id, patch.sortOrder.GetOr(before[k].sortOrder),
        PhotoFields(before[k].fields.locationId, patch.url.GetOr(before[k].fields.url),
          patch.title.GetOr(before[k].fields.title), patch.desc.GetOr(before[k].fields.desc)))
    {
      PhotoPatchApplied(before[k], patch, sets);
    }
  }

  /** One optional assignment more at the end of the `SET` list. */
  lemma AssignPhotoMaybe(row: Photo, sets: seq<PhotoAssignment>, present: bool, a: PhotoAssignment)
    ensures AssignPhoto(row, sets + (if present then [a] else [])) ==
      if present then ApplyPhoto(AssignPhoto(row, sets), a) else AssignPhoto(row, sets)
  {
    var s := sets + (if present then [a] else []);
    if present {
      assert s[..|s| - 1] == sets;
    } else {
      assert s == sets;
    }
  }

  /** The cascade keeps the foreign key: every surviving photo's location survives. */
  lemma CascadeKeepsForeignKey(locations: seq<Location>, photos: seq<Photo>, id: int)
    requires PhotosHaveLocations(locations, photos)
    ensures PhotosHaveLocations(WithoutId(locations, id), PhotosOutside(photos, id))
  {
    var remaining := WithoutId(locations, id);
    var kept := PhotosOutside(photos, id);
    forall k | 0 <= k < |kept| ensures FindById(remaining, kept[k].fields.locationId).Some? {
      var x := kept[k].fields.locationId;
      var j :| 0 <= j < |photos| && photos[j] == kept[k];
      var f :| 0 <= f < |locations| && locations[f].id == x;
      WithoutIdComplete(locations, id, f);
      var g :| 0 <= g < |remaining| && remaining[g] == locations[f];
      assert remaining[g].id == x;
    }
  }

  lemma {:induction false} PhotosOfAppend(a: seq<Photo>, b: seq<Photo>, locationId: int)
    ensures PhotosOf(a + b, locationId) == PhotosOf(a, locationId) + PhotosOf(b, locationId)
    decreases |b|
  {
    if b == [] {
      assert a + b == a;
    } else {
      var init := b[..|b| - 1];
      assert (a + b)[..|a + b| - 1] == a + init;
      assert (a + b)[|a + b| - 1] == b[|b| - 1];
      PhotosOfAppend(a, init, locationId);
    }
  }

  lemma PhotosOfSingle(p: Photo, locationId: int)
    ensures PhotosOf([p], locationId) == if p.fields.locationId == locationId then [p] else []
  {
    assert [p][..0] == [];
  }

  /**
   * `ON DELETE CASCADE`: the deleted location keeps no photo, and every
   * other location keeps exactly the photos it had, in the same order.
   */
  lemma {:induction false} CascadeDelete(photos: seq<Photo>, id: int, other: int)
    ensures PhotosOf(PhotosOutside(photos, id), id) == []
    ensures other != id ==> PhotosOf(PhotosOutside(photos, id), other) == PhotosOf(photos, other)
    decreases |photos|
  {
    if photos != [] {
      var init := photos[..|photos| - 1];
      var last := photos[|photos| - 1];
      CascadeDelete(init, id, other);
      if last.fields.locationId != id {
        PhotosOfAppend(PhotosOutside(init, id), [last], id);
        PhotosOfAppend(PhotosOutside(init, id), [last], other);
        PhotosOfSingle(last, id);
        PhotosOfSingle(last, other);
      }
    }
  }

  /** `createPhoto` lists the new photo last among its own location's photos. */
  lemma CreatePhotoListsLast(photos: seq<Photo>, p: Photo)
    requires p.sortOrder == NextOrder(PhotosOf(photos, p.fields.locationId))
    ensures ListPhotos(photos + [p], p.fields.locationId) == ListPhotos(photos, p.fields.locationId) + [p]
  {
    var l := p.fields.locationId;
    PhotosOfAppend(photos, [p], l);
    PhotosOfSingle(p, l);
    AppendGreatest(PhotosOf(photos, l), p);
  }

  /** `createPhoto` leaves every other location's listing as it was. */
  lemma CreatePhotoLeavesOthers(photos: seq<Photo>, p: Photo, other: int)
    requires other != p.fields.locationId
    ensures ListPhotos(photos + [p], other) == ListPhotos(photos, other)
  {
    PhotosOfAppend(photos, [p], other);
    PhotosOfSingle(p, other);
    assert PhotosOf(photos + [p], other) == PhotosOf(photos, other);
  }

  /**
   * The public projection follows the listing: entry `i` is the `i`-th
   * listed location with `cover` as `src`, and its details are its listed
   * photos with `url` as `src`, `title`/`desc` present only when non-empty.
   */
  lemma PublicLocationsShape(locations: seq<Location>, photos: seq<Photo>, i: int)
    requires 0 <= i < |locations|
    ensures var loc := SortByOrder(locations)[i];
            var ps := ListPhotos(photos, loc.id);
            var pl := PublicLocations(locations, photos)[i];
            pl.src == loc.fields.cover && pl.title == loc.fields.title && |pl.details| == |ps| &&
            forall j :: 0 <= j < |ps| ==>
              pl.details[j].src == ps[j].fields.url &&
              (pl.details[j].title.Some? <==> ps[j].fields.title != "") &&
              (pl.details[j].desc.Some? <==> ps[j].fields.desc != "") &&
              pl.details[j].title.GetOr("") == ps[j].fields.title &&
              pl.details[j].desc.GetOr("") == ps[j].fields.desc
  {
  }

  lemma {:induction false} PhotosOfNone(q: seq<Photo>, locationId: int)
    requires forall k :: 0 <= k < |q| ==> q[k].fields.locationId != locationId
    ensures PhotosOf(q, locationId) == []
    decreases |q|
  {
    if q != [] {
      var init := q[..|q| - 1];
      assert forall k :: 0 <= k < |init| ==> init[k] == q[k];
      PhotosOfNone(init, locationId);
      assert PhotosOf(q, locationId) == PhotosOf(init, locationId);
    }
  }

  lemma {:induction false} PhotosOfAll(q: seq<Photo>, locationId: int)
    requires forall k :: 0 <= k < |q| ==> q[k].fields.locationId == locationId
    ensures PhotosOf(q, locationId) == q
    decreases |q|
  {
    if q != [] {
      var init := q[..|q| - 1];
      assert forall k :: 0 <= k < |init| ==> init[k] == q[k];
      PhotosOfAll(init, locationId);
      assert PhotosOf(q, locationId) == PhotosOf(init, locationId) + [q[|q| - 1]];
      SnocOfLast(q);
    }
  }

  /** Photos appended for a location id above every earlier one are exactly that location's. */
  lemma PhotosOfSplit(before: seq<Photo>, rows: seq<Photo>, last: int, locationId: int)
    requires forall k :: 0 <= k < |before| ==> before[k].fields.locationId < last
    requires forall k :: 0 <= k < |rows| ==> rows[k].fields.locationId == last
    ensures PhotosOf(before + rows, locationId) == if locationId == last then rows else PhotosOf(before, locationId)
  {
    PhotosOfAppend(before, rows, locationId);
    if locationId == last {
      PhotosOfNone(before, locationId);
      PhotosOfAll(rows, locationId);
      assert [] + rows == rows;
    } else {
      PhotosOfNone(rows, locationId);
      assert PhotosOf(before, locationId) + [] == PhotosOf(before, locationId);
    }
  }

  /** Every photo of `q` belongs to a location id in `(low, high]`. */
  ghost predicate LocationsWithin(q: seq<Photo>, low: int, high: int) {
    forall k :: 0 <= k < |q| ==> low < q[k].fields.locationId <= high
  }

  /** The photos of location `low + 1 + i` in `q` list `groups[i]`, for every `i`. */
  ghost predicate GroupsListed(q: seq<Photo>, low: int, groups: seq<seq<PhotoFields>>) {
    forall i :: 0 <= i < |groups| ==> Lists(PhotosOf(q, low + 1 + i), groups[i])
  }

  /**
   * `t'` is `t` with the locations `locs` appended in order (ids after the
   * counter, `sort_order` their position) and, for location `i`, photos
   * listing `groups[i]`; the photos already in `t` are kept.
   */
  ghost predicate Appended(t: Tables, t': Tables, locs: seq<LocationFields>, groups: seq<seq<PhotoFields>>) {
    var p := |t.photos|;
    |groups| == |locs| &&
    t'.locationSeq == t.locationSeq + |locs| &&
    t'.locations == t.locations + Numbered(locs, t.locationSeq) &&
    p <= |t'.photos| && t'.photos[..p] == t.photos &&
    LocationsWithin(t'.photos[p..], t.locationSeq, t.locationSeq + |locs|) &&
    GroupsListed(t'.photos[p..], t.locationSeq, groups)
  }

  lemma AppendedNothing(t: Tables)
    ensures Appended(t, t, [], [])
  {
    assert t.locations + Numbered([], t.locationSeq) == t.locations;
    assert t.photos[|t.photos|..] == [];
  }

  /** One more location, then its photos `g` inserted in order, extend what was appended. */
  lemma AppendedStep(t: Tables, t1: Tables, t': Tables, locs: seq<LocationFields>, groups: seq<seq<PhotoFields>>,
                     l: LocationFields, g: seq<PhotoFields>, base: int)
    requires Appended(t, t1, locs, groups)
    requires forall k :: 0 <= k < |g| ==> g[k].locationId == t1.locationSeq + 1
    requires t'.locationSeq == t1.locationSeq + 1
    requires t'.locations == t1.locations + [Row(t1.locationSeq + 1, |locs|, l)]
    requires t'.photos == t1.photos + Numbered(g, base)
    ensures Appended(t, t', locs + [l], groups + [g])
  {
    var p := |t.photos|;
    NumberedAppend(locs, l, t.locationSeq);
    assert t'.photos[..p] == t.photos by {
      assert t'.photos[..p] == t1.photos[..p];
    }
    assert t'.photos[p..] == t1.photos[p..] + Numbered(g, base);
    PhotoGroupsStep(t1.photos[p..], Numbered(g, base), t.locationSeq, groups, g);
  }

  /**
   * Groups of photos appended location by location: when the photos so far
   * belong to locations `low + 1 .. low + n` and list `groups[i]` for each,
   * appending `rows` listing `g` for location `low + n + 1` keeps that.
   */
  lemma PhotoGroupsStep(before: seq<Photo>, rows: seq<Photo>, low: int, groups: seq<seq<PhotoFields>>, g: seq<PhotoFields>)
    requires LocationsWithin(before, low, low + |groups|)
    requires GroupsListed(before, low, groups)
    requires forall k :: 0 <= k < |rows| ==> rows[k].fields.locationId == low + |groups| + 1
    requires Lists(rows, g)
    ensures LocationsWithin(before + rows, low, low + |groups| + 1)
    ensures GroupsListed(before + rows, low, groups + [g])
  {
    var last := low + |groups| + 1;
    var expected := groups + [g];
    forall i | 0 <= i < |groups| ensures Lists(PhotosOf(before + rows, low + 1 + i), expected[i]) {
      assert expected[i] == groups[i];
      OldGroupKept(before, rows, last, low + 1 + i, groups[i]);
    }
    assert Lists(PhotosOf(before + rows, low + 1 + |groups|), expected[|groups|]) by {
      NewGroupListed(before, rows, low + 1 + |groups|, g);
    }
    WithinAfterAppend(before, rows, low, last);
  }

  lemma WithinAfterAppend(before: seq<Photo>, rows: seq<Photo>, low: int, last: int)
    requires LocationsWithin(before, low, last - 1)
    requires forall k :: 0 <= k < |rows| ==> rows[k].fields.locationId == last
    requires low < last
    ensures LocationsWithin(before + rows, low, last)
  {
    forall k | 0 <= k < |before + rows| ensures low < (before + rows)[k].fields.locationId <= last {
      if k < |before| {
        assert (before + rows)[k] == before[k];
      } else {
        assert (before + rows)[k] == rows[k - |before|];
      }
    }
  }

  lemma OldGroupKept(before: seq<Photo>, rows: seq<Photo>, last: int, locationId: int, fs: seq<PhotoFields>)
    requires locationId != last
    requires forall k :: 0 <= k < |rows| ==> rows[k].fields.locationId == last
    requires Lists(PhotosOf(before, locationId), fs)
    ensures Lists(PhotosOf(before + rows, locationId), fs)
  {
    PhotosOfAppend(before, rows, locationId);
    PhotosOfNone(rows, locationId);
    assert PhotosOf(before, locationId) + [] == PhotosOf(before, locationId);
  }

  lemma NewGroupListed(before: seq<Photo>, rows: seq<Photo>, last: int, fs: seq<PhotoFields>)
    requires forall k :: 0 <= k < |before| ==> before[k].fields.locationId < last
    requires forall k :: 0 <= k < |rows| ==> rows[k].fields.locationId == last
    requires Lists(rows, fs)
    ensures Lists(PhotosOf(before + rows, last), fs)
  {
    PhotosOfAppend(before, rows, last);
    PhotosOfNone(before, last);
    PhotosOfAll(rows, last);
    assert [] + rows == rows;
  }
}
