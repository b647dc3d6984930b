/**
 * The URL record table of the shortener and the service that owns it:
 * shortening, resolution with click counting, per-user listing, and
 * owner-scoped update and soft delete.
 */
module ShortUrl {
  import opened Wrappers
  import opened Records

  /** One row of the URL table. `deletedAt` present means soft-deleted. */
  datatype Url = Url(
    id: nat,
    originalUrl: string,
    shortUrl: string,
    userId: Option<string>,
    clickCount: nat,
    createdAt: Timestamp,
    updatedAt: Timestamp,
    deletedAt: Option<Timestamp>)
  {
    predicate IsLive() { deletedAt.None? }
  }

  /** The one failure the URL service raises. */
  datatype Error = NotFound

  /** The full short URL stored for a code: the base URL, a slash, the code. */
  function ShortKey(baseUrl: string, code: string): (k: string)
    ensures |k| == |baseUrl| + 1 + |code|
    ensures k[..|baseUrl|] == baseUrl && k[|baseUrl|] == '/' && k[|baseUrl| + 1..] == code
  {
    baseUrl + "/" + code
  }

  /** The filter of the resolution query: live, with this short URL. */
  function LiveWithKey(key: string): Url -> bool {
    (u: Url) => u.shortUrl == key && u.IsLive()
  }

  /** The filter of the update and delete queries: this id, owned by this
      user, and live. A record without an owner never matches. */
  function OwnedLiveWithId(id: nat, userId: string): Url -> bool {
    (u: Url) => u.id == id && u.userId == Some(userId) && u.IsLive()
  }

  /** The filter of the listing query: owned by this user, and live. */
  function OwnedLive(userId: string): Url -> bool {
    (u: Url) => u.userId == Some(userId) && u.IsLive()
  }

  /** Index of the record a short URL resolves to: the first live record
      holding that key. */
  function Resolve(t: seq<Url>, key: string): (r: Option<nat>)
    ensures r.Some? ==> r.value < |t| && t[r.value].shortUrl == key && t[r.value].IsLive()
    ensures r.Some? ==> forall j :: 0 <= j < r.value ==> !(t[j].shortUrl == key && t[j].IsLive())
    ensures r.None? <==> forall j :: 0 <= j < |t| ==> !(t[j].shortUrl == key && t[j].IsLive())
  {
    FindFirst(t, LiveWithKey(key))
  }

  /** Index of the record an owner may update or delete under `id`. */
  function FindOwned(t: seq<Url>, id: nat, userId: string): (r: Option<nat>)
    ensures r.Some? ==> r.value < |t| && t[r.value].id == id
    ensures r.Some? ==> t[r.value].userId == Some(userId) && t[r.value].IsLive()
    ensures r.None? <==> forall j :: 0 <= j < |t| ==>
      !(t[j].id == id && t[j].userId == Some(userId) && t[j].IsLive())
  {
    FindFirst(t, OwnedLiveWithId(id, userId))
  }

  /** The live records of one user, in table order. */
  function UserUrls(t: seq<Url>, userId: string): (r: seq<Url>)
    ensures forall u :: u in r <==> u in t && u.userId == Some(userId) && u.IsLive()
    ensures forall u :: multiset(r)[u] ==
                        (if u.userId == Some(userId) && u.IsLive() then multiset(t)[u] else 0)
  {
    FilterMembers(t, OwnedLive(userId));
    Filter(t, OwnedLive(userId))
  }

  /** No two records share an id. */
  ghost predicate IdsDistinct(t: seq<Url>) {
    forall i, j :: 0 <= i < j < |t| ==> t[i].id != t[j].id
  }

  /** No two live records share a short URL. The service does not enforce
      this; it holds as long as every new code is free among live records. */
  ghost predicate LiveKeysUnique(t: seq<Url>) {
    forall i, j :: 0 <= i < j < |t| && t[i].IsLive() && t[j].IsLive() ==> t[i].shortUrl != t[j].shortUrl
  }

  /** How one record may change between two states of the table: id, short
      URL, owner and creation time are fixed, the click count never drops,
      and a soft-deleted record never changes again (so it is never undeleted). */
  ghost predicate RecordEvolves(u: Url, v: Url) {
    && v.id == u.id
    && v.shortUrl == u.shortUrl
    && v.userId == u.userId
    && v.createdAt == u.createdAt
    && u.clickCount <= v.clickCount
    && (u.deletedAt.Some? ==> v == u)
  }

  /** How the whole table may change: records are only added at the end and
      existing ones evolve. */
  ghost predicate Evolves(t: seq<Url>, t': seq<Url>) {
    |t| <= |t'| && forall i :: 0 <= i < |t| ==> RecordEvolves(t[i], t'[i])
  }

  class ShortUrlService {
    /** The configured base URL, shared by shortening and resolution. */
    const baseUrl: string
    /** The URL table, in insertion order. */
    var urls: seq<Url>
    /** The id the store assigns to the next record. */
    var nextId: nat

    ghost predicate Valid()
      reads this
    {
      && IdsDistinct(urls)
      && forall i :: 0 <= i < |urls| ==> urls[i].id < nextId
    }

    constructor (baseUrl: string)
      ensures Valid()
      ensures this.baseUrl == baseUrl && urls == [] && nextId == 0
    {
      this.baseUrl := baseUrl;
      urls := [];
      nextId := 0;
    }

    /** Stores a new record for `originalUrl` under the short URL built from
        `code`, owned by `userId` when the caller is signed in. */
    method ShortenUrl(originalUrl: string, userId: Option<string>, code: string, now: Timestamp)
      returns (url: Url)
      requires Valid()
      modifies this
      ensures Valid()
      ensures url.id == old(nextId) && nextId == old(nextId) + 1
      ensures url.originalUrl == originalUrl && url.shortUrl == ShortKey(baseUrl, code)
      ensures url.userId == userId && url.clickCount == 0 && url.deletedAt == None
      ensures url.createdAt == now && url.updatedAt == now
      ensures urls == old(urls) + [url]
      ensures Evolves(old(urls), urls)
      ensures old(LiveKeysUnique(urls)) && old(Resolve(urls, ShortKey(baseUrl, code))).None? ==> LiveKeysUnique(urls)
    {
      var shortUrl := ShortKey(baseUrl, code);
      url := Url(nextId, originalUrl, shortUrl, userId, 0, now, now, None);
      urls := urls + [url];
      nextId := nextId + 1;
    }

    /** Resolves a code to its original URL and counts the click; fails with
        NotFound when no live record holds the short URL. */
    method FindOriginalUrl(code: string) returns (r: Result<string, Error>)
      requires Valid()
      modifies this
      ensures Valid() && nextId == old(nextId)
      ensures r.Err? <==> old(Resolve(urls, ShortKey(baseUrl, code))).None?
      ensures r.Err? ==> r.error == NotFound && urls == old(urls)
      ensures r.Ok? ==>
        var i := old(Resolve(urls, ShortKey(baseUrl, code))).value;
        && r.value == old(urls)[i].originalUrl
        && urls == old(urls)[i := old(urls)[i].(clickCount := old(urls)[i].clickCount + 1)]
      ensures Evolves(old(urls), urls)
      ensures old(LiveKeysUnique(urls)) ==> LiveKeysUnique(urls)
    {
      var shortUrl := ShortKey(baseUrl, code);
      var found := Resolve(urls, shortUrl);
      if found.None? {
        return Err(NotFound);
      }
      var i := found.value;
      var url := urls[i];
      urls := urls[i := url.(clickCount := url.clickCount + 1)];
      r := Ok(url.originalUrl);
    }

    /** The live records owned by `userId`. */
    function ListUserUrls(userId: string): (r: seq<Url>)
      reads this
      ensures |r| <= |urls|
      ensures forall u :: u in r <==> u in urls && u.userId == Some(userId) && u.IsLive()
      ensures forall u :: multiset(r)[u] ==
                          (if u.userId == Some(userId) && u.IsLive() then multiset(urls)[u] else 0)
    {
      UserUrls(urls, userId)
    }

    /** Points the live record `urlId` owned by `userId` at a new original
        URL; fails with NotFound when there is no such record. */
    method UpdateUserUrl(userId: string, urlId: nat, newOriginalUrl: string, now: Timestamp)
      returns (r: Result<Url, Error>)
      requires Valid()
      modifies this
      ensures Valid() && nextId == old(nextId)
      ensures r.Err? <==> old(FindOwned(urls, urlId, userId)).None?
      ensures r.Err? ==> r.error == NotFound && urls == old(urls)
      ensures r.Ok? ==>
        var i := old(FindOwned(urls, urlId, userId)).value;
        && r.value == old(urls)[i].(originalUrl := newOriginalUrl, updatedAt := now)
        && urls == old(urls)[i := r.value]
      ensures Evolves(old(urls), urls)
      ensures old(LiveKeysUnique(urls)) ==> LiveKeysUnique(urls)
    {
      var found := FindOwned(urls, urlId, userId);
      if found.None? {
        return Err(NotFound);
      }
      // The store updates by id; ids are distinct, so that is record i.
      var i := found.value;
      var updated := urls[i].(originalUrl := newOriginalUrl, updatedAt := now);
      urls := urls[i := updated];
      r := Ok(updated);
    }

    /** Soft-deletes the live record `urlId` owned by `userId`; fails with
        NotFound when there is no such record. */
    method DeleteUserUrl(userId: string, urlId: nat, now: Timestamp)
      returns (r: Result<Url, Error>)
      requires Valid()
      modifies this
      ensures Valid() && nextId == old(nextId)
      ensures r.Err? <==> old(FindOwned(urls, urlId, userId)).None?
      ensures r.Err? ==> r.error == NotFound && urls == old(urls)
      ensures r.Ok? ==>
        var i := old(FindOwned(urls, urlId, userId)).value;
        && r.value == old(urls)[i].(deletedAt := Some(now))
        && urls == old(urls)[i := r.value]
      ensures Evolves(old(urls), urls)
      ensures old(LiveKeysUnique(urls)) ==> LiveKeysUnique(urls)
    {
      var found := FindOwned(urls, urlId, userId);
      if found.None? {
        return Err(NotFound);
      }
      var i := found.value;
      var deleted := urls[i].(deletedAt := Some(now));
      urls := urls[i := deleted];
      r := Ok(deleted);
    }
  }
}
