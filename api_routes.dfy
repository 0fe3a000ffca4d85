/**
 * routes/api.js: the two public read routes. Each serves the public
 * projection of the store (`Store.PublicLocations`) with a
 * `Cache-Control` header and an entity tag, and answers a conditional
 * request whose `If-None-Match` equals the current tag with an empty 304.
 * md5 over the JSON text is the parameter `digest`; a failure of the
 * database is the parameter `storeFails`.
 */
module PublicApi {
  import opened Wrappers
  import opened Text
  import opened Store

  /** The JSON a route sends. */
  datatype Body =
    | Listing(locations: seq<PublicLocation>)
    | Single(location: PublicLocation)
    | ErrorBody(error: string)
    | NoBody

  datatype Header = Header(name: string, value: string)

  datatype Response = Response(status: int, headers: seq<Header>, body: Body)

  const CacheControl: Header := Header("Cache-Control", "public, max-age=60")

  /** The value of the last header called `name`, if any. */
  function HeaderValue(headers: seq<Header>, name: string): (v: Option<string>)
    ensures v.None? <==> forall i :: 0 <= i < |headers| ==> headers[i].name != name
    ensures v.Some? ==> exists i :: 0 <= i < |headers| && headers[i] == Header(name, v.value)
  {
    if headers == [] then None
    else
      var last := headers[|headers| - 1];
      var init := headers[..|headers| - 1];
      assert forall i :: 0 <= i < |init| ==> init[i] == headers[i];
      if last.name == name then Some(last.value) else HeaderValue(init, name)
  }

  /** `etagFor(body)`: the digest in double quotes, so equal data gives equal tags. */
  function ETag(body: Body, digest: Body -> string): (tag: string)
    ensures |tag| == |digest(body)| + 2
    ensures tag[0] == '"' && tag[|tag| - 1] == '"' && tag[1..|tag| - 1] == digest(body)
  {
    "\"" + digest(body) + "\""
  }

  /** The response to a projection once it is loaded: 304 on a matching tag, else 200 with the tag. */
  function Conditional(data: Body, ifNoneMatch: Option<string>, digest: Body -> string): (res: Response)
    ensures res.status == 304 <==> ifNoneMatch == Some(ETag(data, digest))
    ensures res.status == 304 ==> res.headers == [CacheControl] && res.body == NoBody
    ensures res.status != 304 ==>
      res.status == 200 && res.body == data &&
      HeaderValue(res.headers, "ETag") == Some(ETag(data, digest)) &&
      HeaderValue(res.headers, "Cache-Control") == Some(CacheControl.value)
  {
    var tag := ETag(data, digest);
    if ifNoneMatch == Some(tag) then Response(304, [CacheControl], NoBody)
    else
      var headers := [CacheControl, Header("ETag", tag)];
      assert headers[..1] == [CacheControl];
      Response(200, headers, data)
  }

  /** `GET /locations`. */
  function ListingResponse(locations: seq<Location>, photos: seq<Photo>, ifNoneMatch: Option<string>,
                           digest: Body -> string, storeFails: bool): (res: Response)
    ensures res.status == 500 <==> storeFails
    ensures res.status == 500 ==> res.headers == [] && res.body == ErrorBody("数据加载失败")
    ensures !storeFails ==> res == Conditional(Listing(PublicLocations(locations, photos)), ifNoneMatch, digest)
  {
    if storeFails then Response(500, [], ErrorBody("数据加载失败"))
    else Conditional(Listing(PublicLocations(locations, photos)), ifNoneMatch, digest)
  }

  /** `GET /locations/:id`, where the id is an index into the listing. */
  function ItemResponse(locations: seq<Location>, photos: seq<Photo>, param: string, ifNoneMatch: Option<string>,
                        digest: Body -> string, storeFails: bool): (res: Response)
    ensures res.status == 400 <==> ParseInt10(param).None?
    ensures res.status == 500 <==> ParseInt10(param).Some? && storeFails
    ensures res.status == 404 <==>
      ParseInt10(param).Some? && !storeFails &&
      (ParseInt10(param).value < 0 || ParseInt10(param).value >= |locations|)
    ensures res.status == 400 ==> res.body == ErrorBody("参数错误") && res.headers == []
    ensures res.status == 404 ==> res.body == ErrorBody("地点不存在") && res.headers == []
    ensures res.status == 200 || res.status == 304 ==>
      var i := ParseInt10(param).value;
      0 <= i < |locations| &&
      res == Conditional(Single(PublicLocations(locations, photos)[i]), ifNoneMatch, digest)
  {
    var id := ParseInt10(param);
    if id.None? then Response(400, [], ErrorBody("参数错误"))
    else if storeFails then Response(500, [], ErrorBody("数据加载失败"))
    else
      var data := PublicLocationAt(locations, photos, id.value);
      if data.None? then Response(404, [], ErrorBody("地点不存在"))
      else Conditional(Single(data.value), ifNoneMatch, digest)
  }

  /**
   * Revalidation works: a client that sends back the tag of a 200 gets a
   * 304 as long as the store has not changed.
   */
  lemma ListingRevalidates(locations: seq<Location>, photos: seq<Photo>, first: Option<string>, digest: Body -> string)
    requires ListingResponse(locations, photos, first, digest, false).status == 200
    ensures var tag := HeaderValue(ListingResponse(locations, photos, first, digest, false).headers, "ETag");
            tag.Some? && ListingResponse(locations, photos, tag, digest, false) == Response(304, [CacheControl], NoBody)
  {
  }

  lemma ItemRevalidates(locations: seq<Location>, photos: seq<Photo>, param: string, first: Option<string>, digest: Body -> string)
    requires ItemResponse(locations, photos, param, first, digest, false).status == 200
    ensures var tag := HeaderValue(ItemResponse(locations, photos, param, first, digest, false).headers, "ETag");
            tag.Some? && ItemResponse(locations, photos, param, tag, digest, false) == Response(304, [CacheControl], NoBody)
  {
  }

  /**
   * The item route serves element `i` of the listing: the same entry, in
   * the same legacy shape, as `GET /locations` at position `i`.
   */
  lemma ItemIsListingEntry(locations: seq<Location>, photos: seq<Photo>, i: int, digest: Body -> string)
    requires 0 <= i < |locations|
    ensures ItemResponse(locations, photos, IntToString(i), None, digest, false).body ==
            Single(ListingResponse(locations, photos, None, digest, false).body.locations[i])
  {
    assert IntToString(i) + [] == IntToString(i);
    ParseIntOfIntToString(i, []);
  }

  /** The route handler for `GET /locations`, setting the headers in the source's order. */
  method GetLocations(locations: seq<Location>, photos: seq<Photo>, ifNoneMatch: Option<string>,
                      digest: Body -> string, storeFails: bool) returns (res: Response)
    ensures res == ListingResponse(locations, photos, ifNoneMatch, digest, storeFails)
  {
    if storeFails {
      return Response(500, [], ErrorBody("数据加载失败"));
    }
    var data := PublicLocations(locations, photos);
    res := Respond(Listing(data), ifNoneMatch, digest);
  }

  /** The route handler for `GET /locations/:id`. */
  method GetLocation(locations: seq<Location>, photos: seq<Photo>, param: string, ifNoneMatch: Option<string>,
                     digest: Body -> string, storeFails: bool) returns (res: Response)
    ensures res == ItemResponse(locations, photos, param, ifNoneMatch, digest, storeFails)
  {
    var id := ParseInt10(param);
    if id.None? {
      return Response(400, [], ErrorBody("参数错误"));
    }
    if storeFails {
      return Response(500, [], ErrorBody("数据加载失败"));
    }
    var data := PublicLocationAt(locations, photos, id.value);
    if data.None? {
      return Response(404, [], ErrorBody("地点不存在"));
    }
    res := Respond(Single(data.value), ifNoneMatch, digest);
  }

  /** The common tail of both handlers: Cache-Control, then 304 or ETag and the body. */
  method Respond(data: Body, ifNoneMatch: Option<string>, digest: Body -> string) returns (res: Response)
    ensures res == Conditional(data, ifNoneMatch, digest)
  {
    var etag := ETag(data, digest);
    var headers := [CacheControl];
    if ifNoneMatch == Some(etag) {
      return Response(304, headers, NoBody);
    }
    headers := headers + [Header("ETag", etag)];
    res := Response(200, headers, data);
  }
}
