/**
 * routes/admin.js: the admin API over the store. Each handler is a method
 * on `Store.Database` returning the reply it sends; what the handler asks
 * the object store to delete (`deleteFromOSS`, fire and forget) is returned
 * as a cleanup list. bcrypt, the JWT signer and the object store's upload
 * are parameters: `matches(password, hash)`, the token, the new hash, and
 * the outcome of each upload.
 */
module AdminRoutes {
  import opened Wrappers
  import opened Text
  import opened Json
  import opened Rows
  import opened Store

  /** multer's `limits.fileSize`: 20 MiB per file. */
  const MaxFileSize: nat := 20 * 1024 * 1024
  /** `upload.array('photos', 50)`. */
  const MaxPhotos: nat := 50

  const BadCredentials: string := "账号或密码错误"

  /** The JSON a handler sends. */
  datatype Body =
    | Message(text: string)
    | Error(error: string)
    | Token(token: string)
    | Created(id: int, text: string)
    | Uploaded(text: string, photos: seq<(int, string)>)
    /** An exception outside the handler's `try` (or a multer limit): Express's default 500 page. */
    | Rejected

  datatype Reply = Reply(status: int, body: Body)

  /** What uploading a buffer to the object store gives: its URL, or the message of the error it throws. */
  datatype UploadResult = Stored(url: string) | Failed(message: string)

  /** A file multer received: its size in bytes and the outcome of uploading it. */
  datatype FileIn = FileIn(size: nat, upload: UploadResult)

  /** `!v` on a text field of the body: absent or empty. */
  predicate Missing(v: Option<string>) {
    v.None? || v.value == ""
  }

  /** `url && url.startsWith('http')`: an object-store URL whose object is to be deleted. */
  predicate IsOssUrl(url: string) {
    url != "" && StartsWith(url, "http")
  }

  /** The cleanup requested for one stored URL. */
  function Cleanup(url: string): (log: seq<string>)
    ensures log == [] || log == [url]
    ensures log == [url] <==> IsOssUrl(url)
  {
    if IsOssUrl(url) then [url] else []
  }

  predicate TooLarge(f: FileIn) {
    f.size > MaxFileSize
  }

  // ----- Login and password -----

  /** `POST /login`. */
  function Login(admins: seq<Admin>, username: Option<string>, password: Option<string>,
                 matches: (string, string) -> bool, token: string): (r: Reply)
    ensures r.status == 400 <==> Missing(username) || Missing(password)
    ensures r.status == 200 <==>
      !Missing(username) && !Missing(password) && AdminByUsername(admins, username.value).Some? &&
      matches(password.value, AdminByUsername(admins, username.value).value.passwordHash)
    ensures r.status == 200 ==> r.body == Token(token)
    ensures r.status != 200 && r.status != 400 ==> r == Reply(401, Error(BadCredentials))
  {
    if Missing(username) || Missing(password) then Reply(400, Error("请输入账号和密码"))
    else
      match AdminByUsername(admins, username.value)
      case None => Reply(401, Error(BadCredentials))
      case Some(admin) =>
        if matches(password.value, admin.passwordHash) then Reply(200, Token(token))
        else Reply(401, Error(BadCredentials))
  }

  /**
   * An unknown username and a wrong password get the same reply, so a
   * failed login does not tell which usernames exist.
   */
  lemma FailedLoginsLookAlike(admins: seq<Admin>, u1: string, p1: string, u2: string, p2: string,
                              matches: (string, string) -> bool, token: string)
    requires u1 != "" && p1 != "" && u2 != "" && p2 != ""
    requires AdminByUsername(admins, u1).None?
    requires AdminByUsername(admins, u2).Some? && !matches(p2, AdminByUsername(admins, u2).value.passwordHash)
    ensures Login(admins, Some(u1), Some(p1), matches, token) == Login(admins, Some(u2), Some(p2), matches, token)
    ensures Login(admins, Some(u1), Some(p1), matches, token) == Reply(401, Error(BadCredentials))
  {
  }

  /**
   * The checks of `PUT /change-password`, in the source's order: the
   * message of the first one that fails, `None` when all pass.
   */
  function PasswordCheck(admins: seq<Admin>, username: Option<string>, oldPassword: Option<string>,
                         newPassword: Option<string>, matches: (string, string) -> bool): (e: Option<string>)
    ensures e.None? <==>
      !Missing(username) && !Missing(oldPassword) && !Missing(newPassword) &&
      Utf16Length(newPassword.value) >= 6 && AdminByUsername(admins, username.value).Some? &&
      matches(oldPassword.value, AdminByUsername(admins, username.value).value.passwordHash)
    ensures Missing(username) || Missing(oldPassword) || Missing(newPassword) ==> e == Some("请填写完整信息")
    ensures !Missing(username) && !Missing(oldPassword) && !Missing(newPassword) && Utf16Length(newPassword.value) < 6 ==>
      e == Some("新密码长度不能少于 6 位")
    ensures (!Missing(username) && !Missing(oldPassword) && !Missing(newPassword) &&
             Utf16Length(newPassword.value) >= 6 && AdminByUsername(admins, username.value).None?) ==>
      e == Some("账号不存在")
    ensures e.Some? && e.value == "当前密码错误" ==>
      AdminByUsername(admins, username.value).Some? && !matches(oldPassword.value, AdminByUsername(admins, username.value).value.passwordHash)
  {
    if Missing(username) || Missing(oldPassword) || Missing(newPassword) then Some("请填写完整信息")
    else if Utf16Length(newPassword.value) < 6 then Some("新密码长度不能少于 6 位")
    else
      match AdminByUsername(admins, username.value)
      case None => Some("账号不存在")
      case Some(admin) => if matches(oldPassword.value, admin.passwordHash) then None else Some("当前密码错误")
  }

  /** The admins table after `updateAdminPassword(username, hash)`. */
  function PasswordUpdated(admins: seq<Admin>, username: string, hash: string): (r: seq<Admin>)
    ensures |r| == |admins|
  {
    seq(|admins|, k requires 0 <= k < |admins| =>
      if admins[k].username == username then admins[k].(passwordHash := hash) else admins[k])
  }

  /**
   * After the update the user is found with the new hash, and every other
   * username is found exactly as before.
   */
  lemma {:induction false} LookupAfterUpdate(admins: seq<Admin>, username: string, hash: string, other: string)
    ensures AdminByUsername(PasswordUpdated(admins, username, hash), other).None? <==> AdminByUsername(admins, other).None?
    ensures AdminByUsername(admins, other).Some? ==>
      AdminByUsername(PasswordUpdated(admins, username, hash), other).value ==
        if other == username then AdminByUsername(admins, other).value.(passwordHash := hash)
        else AdminByUsername(admins, other).value
  {
    if admins != [] {
      var updated := PasswordUpdated(admins, username, hash);
      assert updated[1..] == PasswordUpdated(admins[1..], username, hash);
      LookupAfterUpdate(admins[1..], username, hash, other);
    }
  }

  /** After a successful change, the new password logs in. */
  lemma NewPasswordLogsIn(admins: seq<Admin>, username: string, oldPassword: Option<string>, newPassword: string,
                          newHash: string, matches: (string, string) -> bool, token: string)
    requires PasswordCheck(admins, Some(username), oldPassword, Some(newPassword), matches).None?
    requires matches(newPassword, newHash)
    ensures Login(PasswordUpdated(admins, username, newHash), Some(username), Some(newPassword), matches, token) ==
            Reply(200, Token(token))
  {
    LookupAfterUpdate(admins, username, newHash, username);
  }

  /** A password change does not affect how any other user logs in. */
  lemma OtherLoginsUnchanged(admins: seq<Admin>, username: string, newHash: string, other: Option<string>,
                             password: Option<string>, matches: (string, string) -> bool, token: string)
    requires other != Some(username)
    ensures Login(PasswordUpdated(admins, username, newHash), other, password, matches, token) ==
            Login(admins, other, password, matches, token)
  {
    if other.Some? {
      LookupAfterUpdate(admins, username, newHash, other.value);
    }
  }

  /**
   * `PUT /change-password`: a 400 with the first failing check's message
   * and the table unchanged, or only that user's hash replaced by
   * `newHash` (bcrypt's hash of the new password).
   */
  method ChangePassword(db: Database, username: Option<string>, oldPassword: Option<string>,
                        newPassword: Option<string>, matches: (string, string) -> bool, newHash: string)
    returns (r: Reply)
    requires db.Valid()
    modifies db
    ensures db.Valid()
    ensures var e := PasswordCheck(old(db.admins), username, oldPassword, newPassword, matches);
      r == if e.Some? then Reply(400, Error(e.value)) else Reply(200, Message("密码修改成功"))
    ensures r.status == 400 ==> db.admins == old(db.admins)
    ensures r.status == 200 ==> db.admins == PasswordUpdated(old(db.admins), username.value, newHash)
    ensures db.locations == old(db.locations) && db.photos == old(db.photos)
  {
    var e := PasswordCheck(db.admins, username, oldPassword, newPassword, matches);
    if e.Some? {
      return Reply(400, Error(e.value));
    }
    db.UpdateAdminPassword(username.value, newHash);
    assert db.admins == PasswordUpdated(old(db.admins), username.value, newHash);
    r := Reply(200, Message("密码修改成功"));
  }

  // ----- Sorting -----

  /**
   * What SQLite compares with `id` for one bound scalar: a number as it is;
   * a digit string meets the INTEGER column's numeric affinity; any other
   * string, and `null`, equals no id.
   */
  function Compared(x: Json): (p: SortParam)
    ensures x.JNumber? ==> p == Integer(x.n)
    ensures x.JNull? ==> p == NoMatch
    ensures x.JString? ==> (p.Integer? <==> x.s != [] && AllDigits(x.s))
    ensures !p.Unbindable?
  {
    match x
    case JNumber(n) => Integer(n)
    case JString(s) => if s != [] && AllDigits(s) then Integer(DigitsValue(s)) else NoMatch
    case _ => NoMatch
  }

  /**
   * One element `id` of `ids` in `stmt.run(index, id)`: the index is a
   * number and takes the first parameter (Store.BindConsScalar), so `id`
   * alone must supply the second. A scalar supplies itself and a
   * one-element array its element (better-sqlite3 spreads arrays);
   * anything else makes `stmt.run` throw.
   */
  function Param(v: Json): (p: SortParam)
    ensures v.JNumber? ==> p == Integer(v.n)
    ensures v.JNull? ==> p == NoMatch
    ensures v.JArray? && |v.elems| == 1 && IsScalar(v.elems[0]) ==> p == Param(v.elems[0])
    ensures p.Unbindable? <==> !IsScalar(v) && !(v.JArray? && |v.elems| == 1 && IsScalar(v.elems[0]))
  {
    BindOne(v);
    match Bind([v], 1)
    case None => Unbindable
    case Some(vs) => Compared(vs[0])
  }

  /** `stmt.run(index, id)` throws exactly when the id is unbindable, and binds the index first. */
  lemma SortRunBinds(index: nat, v: Json)
    ensures Bind([JNumber(index), v], 2).None? <==> Param(v).Unbindable?
    ensures Bind([JNumber(index), v], 2).Some? ==> Bind([JNumber(index), v], 2).value[0] == JNumber(index)
  {
    BindConsScalar(JNumber(index), [v], 1);
  }

  /** An id sent as a numeral string targets the same row as the number. */
  lemma NumeralTargetsSameRow(n: nat)
    ensures Param(JString(NatToString(n))) == Param(JNumber(n))
  {
    NatToStringValue(n);
  }

  /** `const { ids } = req.body; Array.isArray(ids)`: the bound values, or `None` for a 400. */
  function SortIds(body: Json): (r: Option<seq<SortParam>>)
    ensures r.None? <==> !(Member(body, "ids").Defined? && Member(body, "ids").value.JArray?)
    ensures r.Some? ==>
      var elems := Member(body, "ids").value.elems;
      |r.value| == |elems| && forall i :: 0 <= i < |elems| ==> r.value[i] == Param(elems[i])
  {
    match Member(body, "ids")
    case Defined(JArray(elems)) => Some(seq(|elems|, i requires 0 <= i < |elems| => Param(elems[i])))
    case _ => None
  }

  /**
   * `PUT /locations/sort`: 400 without an `ids` array, the store
   * untouched; otherwise the transactional rewrite, whose exception on an
   * unbindable id reaches Express (500) after the rollback. The handler
   * reads `req.body.ids`, which throws on a `null` body; as deployed that
   * branch is never reached, because `express.json()` in its default strict
   * mode (server.js:15, 27) answers 400 to a top-level `null` or primitive
   * before the handler runs.
   */
  method SortLocations(db: Database, body: Json) returns (r: Reply)
    requires db.Valid()
    modifies db
    ensures db.Valid()
    ensures body.JNull? ==> r == Reply(500, Rejected) && db.locations == old(db.locations)
    ensures !body.JNull? && SortIds(body).None? ==> r == Reply(400, Error("参数错误")) && db.locations == old(db.locations)
    ensures !body.JNull? && SortIds(body).Some? ==>
      var ids := SortIds(body).value;
      r == (if Bindable(ids) then Reply(200, Message("排序更新成功")) else Reply(500, Rejected)) &&
      db.locations == if Bindable(ids) then Reordered(old(db.locations), ids) else old(db.locations)
    ensures db.photos == old(db.photos) && db.admins == old(db.admins)
  {
    if body.JNull? {
      return Reply(500, Rejected);
    }
    var ids := SortIds(body);
    if ids.None? {
      return Reply(400, Error("参数错误"));
    }
    var ok := db.UpdateLocationSort(ids.value);
    r := if ok then Reply(200, Message("排序更新成功")) else Reply(500, Rejected);
  }

  /** `PUT /photos/sort`: the same over the photos table, with the same unreachable `null` body branch. */
  method SortPhotos(db: Database, body: Json) returns (r: Reply)
    requires db.Valid()
    modifies db
    ensures db.Valid()
    ensures body.JNull? ==> r == Reply(500, Rejected) && db.photos == old(db.photos)
    ensures !body.JNull? && SortIds(body).None? ==> r == Reply(400, Error("参数错误")) && db.photos == old(db.photos)
    ensures !body.JNull? && SortIds(body).Some? ==>
      var ids := SortIds(body).value;
      r == (if Bindable(ids) then Reply(200, Message("排序更新成功")) else Reply(500, Rejected)) &&
      db.photos == if Bindable(ids) then Reordered(old(db.photos), ids) else old(db.photos)
    ensures db.locations == old(db.locations) && db.admins == old(db.admins)
  {
    if body.JNull? {
      return Reply(500, Rejected);
    }
    var ids := SortIds(body);
    if ids.None? {
      return Reply(400, Error("参数错误"));
    }
    var ok := db.UpdatePhotoSort(ids.value);
    r := if ok then Reply(200, Message("排序更新成功")) else Reply(500, Rejected);
  }

  // ----- Locations -----

  /** `db.getLocation(parseInt(param, 10))`: `NaN` matches no row. */
  function TargetLocation(locations: seq<Location>, param: string): (r: Option<Location>)
    ensures r.None? <==>
      ParseInt10(param).None? || forall k :: 0 <= k < |locations| ==> locations[k].id != ParseInt10(param).value
    ensures r.Some? ==> r.value in locations && ParseInt10(param) == Some(r.value.id)
  {
    var id := ParseInt10(param);
    if id.None? then None else FindById(locations, id.value)
  }

  /** The cover a new location gets: the uploaded URL, or `''` without a file. */
  function CoverUrl(cover: Option<FileIn>): (url: string)
    requires cover.Some? ==> cover.value.upload.Stored?
    ensures cover.None? ==> url == ""
  {
    if cover.Some? then cover.value.upload.url else ""
  }

  /**
   * `POST /locations`: a file over multer's limit is refused before the
   * handler; an empty title is a 400; a failed upload a 500; otherwise the
   * location is appended at the end of the listing. Only the 200 writes.
   */
  method AddLocation(db: Database, title: Option<string>, cover: Option<FileIn>) returns (r: Reply)
    requires db.Valid()
    modifies db
    ensures db.Valid()
    ensures cover.Some? && TooLarge(cover.value) ==> r == Reply(500, Rejected)
    ensures !(cover.Some? && TooLarge(cover.value)) && Missing(title) ==> r == Reply(400, Error("标题不能为空"))
    ensures !(cover.Some? && TooLarge(cover.value)) && !Missing(title) && cover.Some? && cover.value.upload.Failed? ==>
      r == Reply(500, Error("创建失败: " + cover.value.upload.message))
    ensures r.status != 200 ==> db.locations == old(db.locations)
    ensures r.status == 200 <==>
      !(cover.Some? && TooLarge(cover.value)) && !Missing(title) && (cover.None? || cover.value.upload.Stored?)
    ensures r.status == 200 ==>
      r.body == Created(old(db.locationSeq) + 1, "创建成功") &&
      db.locations == old(db.locations) + [Row(old(db.locationSeq) + 1, NextOrder(old(db.locations)),
                                               LocationFields(title.value, CoverUrl(cover)))]
    ensures db.photos == old(db.photos) && db.admins == old(db.admins)
  {
    if cover.Some? && TooLarge(cover.value) {
      return Reply(500, Rejected);
    }
    if Missing(title) {
      return Reply(400, Error("标题不能为空"));
    }
    var url := "";
    if cover.Some? {
      if cover.value.upload.Failed? {
        return Reply(500, Error("创建失败: " + cover.value.upload.message));
      }
      url := cover.value.upload.url;
    }
    var id := db.CreateLocation(title.value, url);
    r := Reply(200, Created(id, "创建成功"));
  }

  /** The row after `updateLocation(id, fields)` with the given title and cover (`None`: not sent). */
  function Edited(row: Location, title: Option<string>, cover: Option<string>): (e: Location)
    ensures e.id == row.id && e.sortOrder == row.sortOrder
    ensures title.None? ==> e.fields.title == row.fields.title
    ensures cover.None? ==> e.fields.cover == row.fields.cover
  {
    row.(fields := LocationFields(title.GetOr(row.fields.title), cover.GetOr(row.fields.cover)))
  }

  /**
   * `PUT /locations/:id`: 404 for an unknown id; the title is replaced when
   * sent (even when empty), the cover only when a file is uploaded, and then
   * the old cover is cleaned up if it is an object-store URL. Nothing is
   * written or cleaned up when the upload fails.
   */
  method EditLocation(db: Database, param: string, title: Option<string>, cover: Option<FileIn>)
    returns (r: Reply, cleanup: seq<string>)
    requires db.Valid()
    modifies db
    ensures db.Valid()
    ensures cover.Some? && TooLarge(cover.value) ==> r == Reply(500, Rejected)
    ensures !(cover.Some? && TooLarge(cover.value)) && TargetLocation(old(db.locations), param).None? ==>
      r == Reply(404, Error("地点不存在"))
    ensures r.status != 200 ==> db.locations == old(db.locations) && cleanup == []
    ensures r.status == 200 <==>
      !(cover.Some? && TooLarge(cover.value)) && TargetLocation(old(db.locations), param).Some? &&
      (cover.None? || cover.value.upload.Stored?)
    ensures r.status == 200 ==>
      var loc := TargetLocation(old(db.locations), param).value;
      var newCover := if cover.Some? then Some(cover.value.upload.url) else None;
      r.body == Message("更新成功") &&
      cleanup == (if cover.Some? then Cleanup(loc.fields.cover) else []) &&
      |db.locations| == |old(db.locations)| &&
      forall k :: 0 <= k < |db.locations| ==>
        db.locations[k] == if old(db.locations)[k].id == loc.id then Edited(old(db.locations)[k], title, newCover)
                           else old(db.locations)[k]
    ensures db.photos == old(db.photos) && db.admins == old(db.admins)
  {
    if cover.Some? && TooLarge(cover.value) {
      return Reply(500, Rejected), [];
    }
    var loc := TargetLocation(db.locations, param);
    if loc.None? {
      return Reply(404, Error("地点不存在")), [];
    }
    var newCover: Option<string> := None;
    cleanup := [];
    if cover.Some? {
      if cover.value.upload.Failed? {
        return Reply(500, Error("更新失败: " + cover.value.upload.message)), [];
      }
      newCover := Some(cover.value.upload.url);
      cleanup := Cleanup(loc.value.fields.cover);
    }
    db.UpdateLocation(loc.value.id, LocationPatch(title, newCover, None));
    r := Reply(200, Message("更新成功"));
  }

  /** The cleanup requests for a list of photos, in list order. */
  function OssUrls(ps: seq<Photo>): (r: seq<string>)
    ensures forall u :: u in r <==> exists k :: 0 <= k < |ps| && ps[k].fields.url == u && IsOssUrl(u)
    decreases |ps|
  {
    if ps == [] then []
    else
      var init := ps[..|ps| - 1];
      assert forall k :: 0 <= k < |init| ==> init[k] == ps[k];
      OssUrls(init) + Cleanup(ps[|ps| - 1].fields.url)
  }

  /** `for (const p of photos) if (p.url && p.url.startsWith('http')) deleteFromOSS(p.url)`. */
  method RequestCleanup(ps: seq<Photo>) returns (log: seq<string>)
    ensures log == OssUrls(ps)
  {
    log := [];
    for i := 0 to |ps|
      invariant log == OssUrls(ps[..i])
    {
      assert ps[..i + 1][..i] == ps[..i];
      if IsOssUrl(ps[i].fields.url) {
        log := log + [ps[i].fields.url];
      }
    }
    assert ps[..|ps|] == ps;
  }

  /**
   * Deleting a location requests cleanup for exactly the object-store URLs
   * among its photos.
   */
  lemma DeleteCleansItsPhotos(photos: seq<Photo>, id: int, u: string)
    ensures u in OssUrls(ListPhotos(photos, id)) <==>
      exists k :: 0 <= k < |photos| && photos[k].fields.locationId == id && photos[k].fields.url == u && IsOssUrl(u)
  {
    var listed := ListPhotos(photos, id);
    if u in OssUrls(listed) {
      var j :| 0 <= j < |listed| && listed[j].fields.url == u && IsOssUrl(u);
      var k :| 0 <= k < |photos| && photos[k] == listed[j];
    }
    if exists k :: 0 <= k < |photos| && photos[k].fields.locationId == id && photos[k].fields.url == u && IsOssUrl(u) {
      var k :| 0 <= k < |photos| && photos[k].fields.locationId == id && photos[k].fields.url == u && IsOssUrl(u);
      var j :| 0 <= j < |listed| && listed[j] == photos[k];
    }
  }

  /**
   * `DELETE /locations/:id`: 404 for an unknown id; otherwise cleanup of
   * the photos' object-store URLs (in listing order) and of the cover, then
   * the delete with its cascade.
   */
  method DeleteLocation(db: Database, param: string) returns (r: Reply, cleanup: seq<string>)
    requires db.Valid()
    modifies db
    ensures db.Valid()
    ensures TargetLocation(old(db.locations), param).None? ==>
      r == Reply(404, Error("地点不存在")) && cleanup == [] &&
      db.locations == old(db.locations) && db.photos == old(db.photos)
    ensures TargetLocation(old(db.locations), param).Some? ==>
      var loc := TargetLocation(old(db.locations), param).value;
      r == Reply(200, Message("删除成功")) &&
      cleanup == OssUrls(ListPhotos(old(db.photos), loc.id)) + Cleanup(loc.fields.cover) &&
      db.locations == WithoutId(old(db.locations), loc.id) && db.photos == PhotosOutside(old(db.photos), loc.id)
    ensures db.admins == old(db.admins)
  {
    var loc := TargetLocation(db.locations, param);
    if loc.None? {
      return Reply(404, Error("地点不存在")), [];
    }
    cleanup := RequestCleanup(ListPhotos(db.photos, loc.value.id));
    cleanup := cleanup + Cleanup(loc.value.fields.cover);
    db.DeleteLocation(loc.value.id);
    r := Reply(200, Message("删除成功"));
  }

  // ----- Photos -----

  /** `GET /locations/:id/photos`: `getPhotos(parseInt(param, 10))`, empty for `NaN`. */
  function PhotosRoute(photos: seq<Photo>, param: string): (r: seq<Photo>)
    ensures ParseInt10(param).None? ==> r == []
    ensures Ordered(r)
    ensures ParseInt10(param).Some? ==>
      (forall k :: 0 <= k < |r| ==> r[k] in photos && r[k].fields.locationId == ParseInt10(param).value) &&
      (forall k :: 0 <= k < |photos| && photos[k].fields.locationId == ParseInt10(param).value ==> photos[k] in r)
  {
    var id := ParseInt10(param);
    if id.None? then [] else ListPhotos(photos, id.value)
  }

  /** The photos an upload of `urls` creates for location `loc`, ids and orders counting up. */
  function Batch(base: int, order: int, loc: int, urls: seq<string>): (r: seq<Photo>)
    ensures |r| == |urls|
    decreases |urls|
  {
    if urls == [] then []
    else
      var n := |urls| - 1;
      Batch(base, order, loc, urls[..n]) + [Row(base + 1 + n, order + n, PhotoFields(loc, urls[n], "", ""))]
  }

  /** The `{ id, url }` results of an upload. */
  function Results(base: int, urls: seq<string>): (r: seq<(int, string)>)
    ensures |r| == |urls|
    decreases |urls|
  {
    if urls == [] then [] else Results(base, urls[..|urls| - 1]) + [(base + |urls|, urls[|urls| - 1])]
  }

  /** Upload `i` becomes photo `i` of the batch: id `base + 1 + i`, order `order + i`, url `urls[i]`, empty caption. */
  lemma {:induction false} BatchAt(base: int, order: int, loc: int, urls: seq<string>, i: int)
    requires 0 <= i < |urls|
    ensures Batch(base, order, loc, urls)[i] == Row(base + 1 + i, order + i, PhotoFields(loc, urls[i], "", ""))
    decreases |urls|
  {
    var n := |urls| - 1;
    if i < n {
      BatchAt(base, order, loc, urls[..n], i);
    }
  }

  /** Result `i` of an upload is `{ id: base + 1 + i, url: urls[i] }`. */
  lemma {:induction false} ResultsAt(base: int, urls: seq<string>, i: int)
    requires 0 <= i < |urls|
    ensures Results(base, urls)[i] == (base + 1 + i, urls[i])
    decreases |urls|
  {
    var n := |urls| - 1;
    if i < n {
      ResultsAt(base, urls[..n], i);
    }
  }

  /** The URLs of the uploads that succeed before the first failure. */
  function StoredPrefix(files: seq<FileIn>): (urls: seq<string>)
    ensures |urls| <= |files|
    ensures forall j :: 0 <= j < |urls| ==> files[j].upload == Stored(urls[j])
    ensures |urls| < |files| ==> files[|urls|].upload.Failed?
  {
    if files == [] || files[0].upload.Failed? then []
    else [files[0].upload.url] + StoredPrefix(files[1..])
  }

  /** multer refuses the request before the handler runs. */
  predicate Refused(files: seq<FileIn>) {
    |files| > MaxPhotos || exists j :: 0 <= j < |files| && TooLarge(files[j])
  }

  /** `NextOrder` over a scope that gains a row ordered one past it. */
  lemma NextOrderSnoc(s: seq<Photo>, p: Photo)
    requires p.sortOrder == NextOrder(s)
    ensures NextOrder(s + [p]) == p.sortOrder + 1
  {
    var t := s + [p];
    assert t[|s|] == p;
    assert forall j :: 0 <= j < |s| ==> t[j] == s[j];
  }

  /** `PhotosOf` over a table that gains a photo of that location. */
  lemma PhotosOfSnoc(photos: seq<Photo>, p: Photo, loc: int)
    requires p.fields.locationId == loc
    ensures PhotosOf(photos + [p], loc) == PhotosOf(photos, loc) + [p]
  {
    assert (photos + [p])[..|photos|] == photos;
  }

  /** One iteration of the upload loop: `createPhoto(locationId, url, '', '')`. */
  method AddPhoto(db: Database, loc: int, url: string) returns (id: int)
    requires db.Valid() && FindById(db.locations, loc).Some?
    modifies db
    ensures db.Valid()
    ensures id == old(db.photoSeq) + 1 && db.photoSeq == id
    ensures db.photos == old(db.photos) + [Row(id, NextOrder(PhotosOf(old(db.photos), loc)), PhotoFields(loc, url, "", ""))]
    ensures NextOrder(PhotosOf(db.photos, loc)) == NextOrder(PhotosOf(old(db.photos), loc)) + 1
    ensures db.locations == old(db.locations) && db.admins == old(db.admins)
  {
    var created := db.CreatePhoto(loc, url, Some(""), Some(""));
    id := created.value;
    var p := Row(id, NextOrder(PhotosOf(old(db.photos), loc)), PhotoFields(loc, url, "", ""));
    PhotosOfSnoc(old(db.photos), p, loc);
    NextOrderSnoc(PhotosOf(old(db.photos), loc), p);
  }

  lemma BatchSnoc(base: int, order: int, loc: int, urls: seq<string>, url: string)
    ensures Batch(base, order, loc, urls + [url]) ==
            Batch(base, order, loc, urls) + [Row(base + 1 + |urls|, order + |urls|, PhotoFields(loc, url, "", ""))]
  {
    assert (urls + [url])[..|urls|] == urls;
  }

  /**
   * `POST /locations/:id/photos`: 404 for an unknown location, 400 without
   * files; otherwise one photo per file in file order, with title and desc
   * `''`. The loop is not a transaction: when an upload fails, the photos
   * of the files before it stay and the reply is a 500.
   */
  method UploadPhotos(db: Database, param: string, files: seq<FileIn>) returns (r: Reply)
    requires db.Valid()
    modifies db
    ensures db.Valid()
    ensures db.locations == old(db.locations) && db.admins == old(db.admins)
    ensures Refused(files) ==> r == Reply(500, Rejected) && db.photos == old(db.photos)
    ensures !Refused(files) && TargetLocation(old(db.locations), param).None? ==>
      r == Reply(404, Error("地点不存在")) && db.photos == old(db.photos)
    ensures !Refused(files) && TargetLocation(old(db.locations), param).Some? && files == [] ==>
      r == Reply(400, Error("请选择照片")) && db.photos == old(db.photos)
    ensures !Refused(files) && TargetLocation(old(db.locations), param).Some? && files != [] ==>
      var loc := TargetLocation(old(db.locations), param).value.id;
      var urls := StoredPrefix(files);
      db.photos == old(db.photos) + Batch(old(db.photoSeq), NextOrder(PhotosOf(old(db.photos), loc)), loc, urls) &&
      r == if |urls| == |files| then Reply(200, Uploaded("成功上传 " + IntToString(|files|) + " 张照片", Results(old(db.photoSeq), urls)))
           else Reply(500, Error("上传失败: " + files[|urls|].upload.message))
  {
    if Refused(files) {
      return Reply(500, Rejected);
    }
    var target := TargetLocation(db.locations, param);
    if target.None? {
      return Reply(404, Error("地点不存在"));
    }
    if |files| == 0 {
      return Reply(400, Error("请选择照片"));
    }
    var loc := target.value.id;
    var urls, results := AddPhotos(db, loc, files);
    if |urls| < |files| {
      return Reply(500, Error("上传失败: " + files[|urls|].upload.message));
    }
    r := Reply(200, Uploaded("成功上传 " + IntToString(|results|) + " 张照片", results));
  }

  /**
   * The loop of the upload: for each file in order, upload it and create
   * its photo, stopping at the first upload that throws.
   */
  method AddPhotos(db: Database, loc: int, files: seq<FileIn>) returns (urls: seq<string>, results: seq<(int, string)>)
    requires db.Valid() && FindById(db.locations, loc).Some?
    modifies db
    ensures db.Valid()
    ensures urls == StoredPrefix(files) && results == Results(old(db.photoSeq), urls)
    ensures db.photos == old(db.photos) + Batch(old(db.photoSeq), NextOrder(PhotosOf(old(db.photos), loc)), loc, urls)
    ensures db.locations == old(db.locations) && db.admins == old(db.admins)
  {
    ghost var before := db.photos;
    ghost var base := db.photoSeq;
    ghost var order := NextOrder(PhotosOf(db.photos, loc));
    urls, results := [], [];
    assert db.photos == before + Batch(base, order, loc, urls);
    var i := 0;
    while i < |files|
      invariant 0 <= i <= |files|
      invariant db.Valid()
      invariant db.locations == old(db.locations) && db.admins == old(db.admins)
      invariant |urls| == i && forall j :: 0 <= j < i ==> files[j].upload == Stored(urls[j])
      invariant db.photoSeq == base + i
      invariant NextOrder(PhotosOf(db.photos, loc)) == order + i
      invariant db.photos == before + Batch(base, order, loc, urls)
      invariant results == Results(base, urls)
    {
      if files[i].upload.Failed? {
        break;
      }
      var url := files[i].upload.url;
      StoredSnoc(files, urls);
      var id := AddNext(db, loc, url, before, base, order, urls);
      results := Push(results, id, url, base, urls);
      urls := urls + [url];
      i := i + 1;
    }
    StoredPrefixUnique(files, urls);
  }

  /** One iteration of the upload loop, stated against the batch so far. */
  method AddNext(db: Database, loc: int, url: string, ghost before: seq<Photo>, ghost base: int, ghost order: int,
                 ghost urls: seq<string>) returns (id: int)
    requires db.Valid() && FindById(db.locations, loc).Some?
    requires db.photoSeq == base + |urls| && NextOrder(PhotosOf(db.photos, loc)) == order + |urls|
    requires db.photos == before + Batch(base, order, loc, urls)
    modifies db
    ensures db.Valid()
    ensures id == base + |urls| + 1 && db.photoSeq == id
    ensures NextOrder(PhotosOf(db.photos, loc)) == order + |urls| + 1
    ensures db.photos == before + Batch(base, order, loc, urls + [url])
    ensures db.locations == old(db.locations) && db.admins == old(db.admins)
  {
    id := AddPhoto(db, loc, url);
    BatchExtends(old(db.photos), before, base, order, loc, urls, url, id, NextOrder(PhotosOf(old(db.photos), loc)));
  }

  /** A table holding a batch, plus the next file's photo, holds the longer batch. */
  lemma BatchExtends(photos: seq<Photo>, before: seq<Photo>, base: int, order: int, loc: int, urls: seq<string>, url: string,
                     id: int, sortOrder: int)
    requires photos == before + Batch(base, order, loc, urls)
    requires id == base + 1 + |urls| && sortOrder == order + |urls|
    ensures photos + [Row(id, sortOrder, PhotoFields(loc, url, "", ""))] == before + Batch(base, order, loc, urls + [url])
  {
    BatchSnoc(base, order, loc, urls, url);
    var b := Batch(base, order, loc, urls);
    var x := Row(id, sortOrder, PhotoFields(loc, url, "", ""));
    assert (before + b) + [x] == before + (b + [x]);
  }

  lemma StoredSnoc(files: seq<FileIn>, urls: seq<string>)
    requires |urls| < |files| && files[|urls|].upload.Stored?
    requires forall j :: 0 <= j < |urls| ==> files[j].upload == Stored(urls[j])
    ensures var next := urls + [files[|urls|].upload.url];
      forall j :: 0 <= j < |next| ==> files[j].upload == Stored(next[j])
  {
  }

  /** `results.push({ id, url })`, for the next id of the batch. */
  method Push(results: seq<(int, string)>, id: int, url: string, ghost base: int, ghost urls: seq<string>)
    returns (pushed: seq<(int, string)>)
    requires results == Results(base, urls) && id == base + 1 + |urls|
    ensures pushed == Results(base, urls + [url])
  {
    ResultsSnoc(base, urls, url);
    pushed := results + [(id, url)];
  }

  lemma ResultsSnoc(base: int, urls: seq<string>, url: string)
    ensures Results(base, urls + [url]) == Results(base, urls) + [(base + 1 + |urls|, url)]
  {
    assert (urls + [url])[..|urls|] == urls;
  }

  /** `StoredPrefix` is the only list of successful uploads followed by a failure or the end. */
  lemma {:induction false} StoredPrefixUnique(files: seq<FileIn>, urls: seq<string>)
    requires |urls| <= |files| && forall j :: 0 <= j < |urls| ==> files[j].upload == Stored(urls[j])
    requires |urls| < |files| ==> files[|urls|].upload.Failed?
    ensures urls == StoredPrefix(files)
  {
    if urls != [] {
      assert files[0].upload == Stored(urls[0]);
      assert forall j :: 0 <= j < |urls| - 1 ==> files[1..][j] == files[j + 1];
      StoredPrefixUnique(files[1..], urls[1..]);
      assert urls == [urls[0]] + urls[1..];
    }
  }

  /**
   * The photos of one upload are listed after the location's earlier
   * photos, in file order; no other location's listing changes.
   */
  lemma {:induction false} BatchListedLast(photos: seq<Photo>, base: int, order: int, loc: int, urls: seq<string>)
    requires order == NextOrder(PhotosOf(photos, loc))
    ensures ListPhotos(photos + Batch(base, order, loc, urls), loc) == ListPhotos(photos, loc) + Batch(base, order, loc, urls)
    decreases |urls|
  {
    if urls == [] {
      assert photos + Batch(base, order, loc, urls) == photos;
    } else {
      var init := urls[..|urls| - 1];
      var url := urls[|urls| - 1];
      var b := Batch(base, order, loc, init);
      var p := Row(base + 1 + |init|, order + |init|, PhotoFields(loc, url, "", ""));
      BatchStep(photos, base, order, loc, urls);
      assert Batch(base, order, loc, urls) == b + [p] by {
        assert init + [url] == urls;
        BatchSnoc(base, order, loc, init, url);
      }
      BatchNextOrder(photos, base, order, loc, init);
      BatchListedLast(photos, base, order, loc, init);
      ListedSnoc(photos, b, p, loc);
    }
  }

  /** One more photo of the location, with the next order, is listed after the ones before it. */
  lemma ListedSnoc(photos: seq<Photo>, b: seq<Photo>, p: Photo, loc: int)
    requires p.fields.locationId == loc && p.sortOrder == NextOrder(PhotosOf(photos + b, loc))
    requires ListPhotos(photos + b, loc) == ListPhotos(photos, loc) + b
    ensures ListPhotos((photos + b) + [p], loc) == ListPhotos(photos, loc) + (b + [p])
  {
    CreatePhotoListsLast(photos + b, p);
    SnocAssoc(ListPhotos(photos, loc), b, p);
  }

  lemma SnocAssoc<T>(a: seq<T>, b: seq<T>, x: T)
    ensures (a + b) + [x] == a + (b + [x])
  {
  }

  /** A batch is the batch of its first files followed by the last file's photo. */
  lemma BatchStep(photos: seq<Photo>, base: int, order: int, loc: int, urls: seq<string>)
    requires urls != []
    ensures var init := urls[..|urls| - 1];
      photos + Batch(base, order, loc, urls) ==
      (photos + Batch(base, order, loc, init)) + [Row(base + 1 + |init|, order + |init|, PhotoFields(loc, urls[|urls| - 1], "", ""))]
  {
    var init := urls[..|urls| - 1];
    assert init + [urls[|urls| - 1]] == urls;
    BatchSnoc(base, order, loc, init, urls[|urls| - 1]);
  }

  /** After a batch the location's next order is one past the batch's last. */
  lemma {:induction false} BatchNextOrder(photos: seq<Photo>, base: int, order: int, loc: int, urls: seq<string>)
    requires order == NextOrder(PhotosOf(photos, loc))
    ensures NextOrder(PhotosOf(photos + Batch(base, order, loc, urls), loc)) == order + |urls|
    decreases |urls|
  {
    if urls == [] {
      assert photos + Batch(base, order, loc, urls) == photos;
    } else {
      var init := urls[..|urls| - 1];
      var before := photos + Batch(base, order, loc, init);
      var p := Row(base + 1 + |init|, order + |init|, PhotoFields(loc, urls[|urls| - 1], "", ""));
      BatchStep(photos, base, order, loc, urls);
      BatchNextOrder(photos, base, order, loc, init);
      PhotosOfSnoc(before, p, loc);
      NextOrderSnoc(PhotosOf(before, loc), p);
      assert PhotosOf(photos + Batch(base, order, loc, urls), loc) == PhotosOf(before, loc) + [p];
    }
  }

  /** A batch leaves every other location's listing as it was. */
  lemma {:induction false} BatchLeavesOthers(photos: seq<Photo>, base: int, order: int, loc: int, urls: seq<string>, other: int)
    requires order == NextOrder(PhotosOf(photos, loc)) && other != loc
    ensures ListPhotos(photos + Batch(base, order, loc, urls), other) == ListPhotos(photos, other)
    decreases |urls|
  {
    if urls == [] {
      assert photos + Batch(base, order, loc, urls) == photos;
    } else {
      var init := urls[..|urls| - 1];
      var before := photos + Batch(base, order, loc, init);
      var p := Row(base + 1 + |init|, order + |init|, PhotoFields(loc, urls[|urls| - 1], "", ""));
      BatchStep(photos, base, order, loc, urls);
      BatchLeavesOthers(photos, base, order, loc, init, other);
      BatchNextOrder(photos, base, order, loc, init);
      CreatePhotoLeavesOthers(before, p, other);
    }
  }

  /**
   * `fields.title`, then `fields.desc`, each when the body has it: the
   * values `updatePhoto` passes ahead of the id. `None`: reading a property
   * of a `null` body throws.
   */
  function CaptionArgs(body: Json): (r: Option<seq<Json>>)
    ensures r.None? <==> body.JNull?
    ensures r.Some? ==>
      var t := Member(body, "title");
      var d := Member(body, "desc");
      |r.value| == (if t.Defined? then 1 else 0) + (if d.Defined? then 1 else 0) &&
      (t.Defined? ==> r.value[0] == t.value) &&
      (d.Defined? ==> r.value[|r.value| - 1] == d.value)
  {
    var t := Member(body, "title");
    var d := Member(body, "desc");
    if t.TypeError? then None
    else Some((if t.Defined? then [t.value] else []) + (if d.Defined? then [d.value] else []))
  }

  /**
   * What `PUT /photos/:id` writes: the new title and desc, each when sent,
   * or `None` when the handler throws. With neither field `updatePhoto`
   * returns before preparing a statement; otherwise
   * `run(title?, desc?, id)` binds the id last (a number, `NaN` for a
   * non-numeric parameter; Store.BindSnocScalar), so the fields alone must
   * fill their columns: a boolean, a non-scalar array element, an object or
   * an array of another length throws, and a one-element array stores its
   * element.
   */
  function CaptionEdit(body: Json, numeral: int -> string): (r: Option<(Option<string>, Option<string>)>)
    ensures body.JNull? ==> r.None?
    ensures r.Some? ==> (r.value.0.Some? <==> Member(body, "title").Defined?) &&
                        (r.value.1.Some? <==> Member(body, "desc").Defined?)
  {
    match CaptionArgs(body)
    case None => None
    case Some(args) =>
      if args == [] then Some((None, None))
      else
        match Bind(args, |args|)
        case None => None
        case Some(vs) =>
          Some((if Member(body, "title").Defined? then Some(NullableText(vs[0], numeral)) else None,
                if Member(body, "desc").Defined? then Some(NullableText(vs[|vs| - 1], numeral)) else None))
  }

  /** A field that cannot be bound (a boolean, or an array holding a nested value) makes the edit a 500. */
  lemma CaptionEditThrows(body: Json, numeral: int -> string)
    requires CaptionArgs(body).Some?
    requires exists i :: 0 <= i < |CaptionArgs(body).value| && Spread(CaptionArgs(body).value[i]).None?
    ensures CaptionEdit(body, numeral).None?
  {
    SpreadAllFails(CaptionArgs(body).value);
  }

  /**
   * Scalar fields are stored as they are: a string as sent, a number as
   * SQLite writes it, `null` as NULL.
   */
  lemma CaptionEditScalars(body: Json, numeral: int -> string)
    requires CaptionArgs(body).Some?
    requires forall i :: 0 <= i < |CaptionArgs(body).value| ==> IsScalar(CaptionArgs(body).value[i])
    ensures var r := CaptionEdit(body, numeral);
      r.Some? &&
      (Member(body, "title").Defined? ==> r.value.0 == Some(NullableText(Member(body, "title").value, numeral))) &&
      (Member(body, "desc").Defined? ==> r.value.1 == Some(NullableText(Member(body, "desc").value, numeral)))
  {
    var args := CaptionArgs(body).value;
    BindScalars(args, |args|);
  }

  /** The row after `updatePhoto(id, { title, desc })`. */
  function Captioned(p: Photo, title: Option<string>, desc: Option<string>): (q: Photo)
    ensures q.id == p.id && q.sortOrder == p.sortOrder
    ensures q.fields.locationId == p.fields.locationId && q.fields.url == p.fields.url
    ensures q.fields.title == (if title.Some? then title.value else p.fields.title)
    ensures q.fields.desc == (if desc.Some? then desc.value else p.fields.desc)
  {
    p.(fields := p.fields.(title := title.GetOr(p.fields.title), desc := desc.GetOr(p.fields.desc)))
  }

  /**
   * `PUT /photos/:id`: title and desc of that photo, each when sent; the
   * reply is 200 whether or not the photo exists, and a 500 from Express,
   * with nothing written, when binding the fields throws.
   */
  method EditPhoto(db: Database, param: string, body: Json, numeral: int -> string) returns (r: Reply)
    requires db.Valid()
    modifies db
    ensures db.Valid()
    ensures var edit := CaptionEdit(body, numeral);
      r == if edit.Some? then Reply(200, Message("更新成功")) else Reply(500, Rejected)
    ensures |db.photos| == |old(db.photos)|
    ensures CaptionEdit(body, numeral).None? ==> db.photos == old(db.photos)
    ensures forall k :: 0 <= k < |db.photos| ==>
      db.photos[k] == if CaptionEdit(body, numeral).Some? && ParseInt10(param) == Some(old(db.photos)[k].id)
                      then Captioned(old(db.photos)[k], CaptionEdit(body, numeral).value.0, CaptionEdit(body, numeral).value.1)
                      else old(db.photos)[k]
    ensures db.locations == old(db.locations) && db.admins == old(db.admins)
  {
    var edit := CaptionEdit(body, numeral);
    if edit.None? {
      return Reply(500, Rejected);
    }
    var id := ParseInt10(param);
    if id.Some? {
      db.UpdatePhoto(id.value, PhotoPatch(edit.value.0, edit.value.1, None, None));
    }
    r := Reply(200, Message("更新成功"));
  }

  /**
   * `DELETE /photos/:id`: cleanup when the photo exists with an
   * object-store URL, then the delete of that one row.
   */
  method DeletePhoto(db: Database, param: string) returns (r: Reply, cleanup: seq<string>)
    requires db.Valid()
    modifies db
    ensures db.Valid()
    ensures r == Reply(200, Message("删除成功"))
    ensures var id := ParseInt10(param);
      cleanup == (if id.Some? && FindById(old(db.photos), id.value).Some? then Cleanup(FindById(old(db.photos), id.value).value.fields.url)
                  else [])
    ensures db.photos == if ParseInt10(param).Some? then WithoutId(old(db.photos), ParseInt10(param).value) else old(db.photos)
    ensures db.locations == old(db.locations) && db.admins == old(db.admins)
  {
    var id := ParseInt10(param);
    cleanup := [];
    if id.Some? {
      var photo := FindById(db.photos, id.value);
      if photo.Some? {
        cleanup := Cleanup(photo.value.fields.url);
      }
      db.DeletePhoto(id.value);
    }
    r := Reply(200, Message("删除成功"));
  }

  /** Deleting a photo removes exactly the rows with that id. */
  lemma DeletesOnlyThatPhoto(photos: seq<Photo>, id: int, p: Photo)
    ensures p in WithoutId(photos, id) <==> p in photos && p.id != id
  {
    if p in photos && p.id != id {
      var k :| 0 <= k < |photos| && photos[k] == p;
      WithoutIdComplete(photos, id, k);
    }
  }
}
