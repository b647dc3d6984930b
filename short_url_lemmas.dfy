/**
 * Properties of the URL table that relate several operations: the
 * shorten/resolve round trip, what a soft delete hides, what updates and
 * click counting leave alone, and how the per-user listing changes.
 */
module ShortUrlLemmas {
  import opened Wrappers
  import opened Records
  import opened ShortUrl

  /** The key rebuilt at resolution identifies the code: under one base URL,
      two codes give the same short URL only if they are the same code. */
  lemma ShortKeyInjective(baseUrl: string, c1: string, c2: string)
    ensures ShortKey(baseUrl, c1) == ShortKey(baseUrl, c2) <==> c1 == c2
  {
  }

  /** Appending a record: a key that already resolves keeps resolving to the
      same (older) record, even when the new record holds the same key; a key
      that did not resolve now resolves to the new record exactly when the
      new record is live and holds it. */
  lemma ResolveAfterShorten(t: seq<Url>, url: Url, key: string)
    ensures Resolve(t + [url], key) ==
      if Resolve(t, key).Some? then Resolve(t, key)
      else if url.shortUrl == key && url.IsLive() then Some(|t|)
      else None
  {
    FindFirstAppend(t, url, LiveWithKey(key));
  }

  /** Round trip: a freshly stored record is what its code resolves to,
      provided no live record already held the key. */
  lemma ShortenThenResolve(t: seq<Url>, url: Url, baseUrl: string, code: string)
    requires url.shortUrl == ShortKey(baseUrl, code) && url.IsLive()
    requires Resolve(t, ShortKey(baseUrl, code)).None?
    ensures Resolve(t + [url], ShortKey(baseUrl, code)) == Some(|t|)
    ensures (t + [url])[Resolve(t + [url], ShortKey(baseUrl, code)).value].originalUrl == url.originalUrl
  {
    ResolveAfterShorten(t, url, ShortKey(baseUrl, code));
  }

  /** A change to a record that keeps its short URL and deletion mark (a
      click, an update of the original URL) does not change what any key
      resolves to. */
  lemma ResolveAfterInPlaceChange(t: seq<Url>, i: nat, v: Url, key: string)
    requires i < |t|
    requires v.shortUrl == t[i].shortUrl && v.deletedAt == t[i].deletedAt
    ensures Resolve(t[i := v], key) == Resolve(t, key)
  {
    FindFirstReplace(t, i, v, LiveWithKey(key));
  }

  /** A change to a record that keeps its id, owner and deletion mark (a
      click, an update of the original URL) does not change which record an
      owner may update or delete. */
  lemma FindOwnedAfterInPlaceChange(t: seq<Url>, i: nat, v: Url, id: nat, userId: string)
    requires i < |t|
    requires v.id == t[i].id && v.userId == t[i].userId && v.deletedAt == t[i].deletedAt
    ensures FindOwned(t[i := v], id, userId) == FindOwned(t, id, userId)
  {
    FindFirstReplace(t, i, v, OwnedLiveWithId(id, userId));
  }

  /** After a soft delete, the record no longer resolves; when live keys are
      unique, its key does not resolve at all. */
  lemma ResolveAfterDelete(t: seq<Url>, i: nat, now: Timestamp, key: string)
    requires i < |t|
    ensures Resolve(t[i := t[i].(deletedAt := Some(now))], key) != Some(i)
    ensures LiveKeysUnique(t) && t[i].IsLive() && t[i].shortUrl == key ==>
      Resolve(t[i := t[i].(deletedAt := Some(now))], key).None?
  {
    var t' := t[i := t[i].(deletedAt := Some(now))];
    if LiveKeysUnique(t) && t[i].IsLive() && t[i].shortUrl == key {
      forall j | 0 <= j < |t'|
        ensures !(t'[j].shortUrl == key && t'[j].IsLive())
      {
        if j < i {
          assert !(t[j].IsLive() && t[j].shortUrl == t[i].shortUrl);
        } else if j > i {
          assert !(t[i].IsLive() && t[j].IsLive() && t[i].shortUrl == t[j].shortUrl);
        }
      }
    }
  }

  /** A second delete (or an update) of a soft-deleted record fails: once
      record i is deleted, no live record carries its id. */
  lemma DeleteTwiceFails(t: seq<Url>, i: nat, id: nat, userId: string, now: Timestamp)
    requires IdsDistinct(t)
    requires FindOwned(t, id, userId) == Some(i)
    ensures FindOwned(t[i := t[i].(deletedAt := Some(now))], id, userId).None?
  {
    var t' := t[i := t[i].(deletedAt := Some(now))];
    forall j | 0 <= j < |t'|
      ensures !(t'[j].id == id && t'[j].userId == Some(userId) && t'[j].IsLive())
    {
      if j < i {
        assert t[j].id != t[i].id;
      } else if j > i {
        assert t[i].id != t[j].id;
      }
    }
  }

  /** A soft delete removes exactly the deleted record from its owner's
      listing and keeps the rest in order. */
  lemma ListAfterDelete(t: seq<Url>, i: nat, userId: string, now: Timestamp)
    requires i < |t| && t[i].userId == Some(userId) && t[i].IsLive()
    ensures UserUrls(t, userId) ==
      UserUrls(t[..i], userId) + ([t[i]] + UserUrls(t[i + 1..], userId))
    ensures UserUrls(t[i := t[i].(deletedAt := Some(now))], userId) ==
      UserUrls(t[..i], userId) + UserUrls(t[i + 1..], userId)
  {
    var p := OwnedLive(userId);
    var t' := t[i := t[i].(deletedAt := Some(now))];
    assert p(t[i]) && !p(t'[i]);
    calc {
      UserUrls(t, userId);
      Filter(t, p);
      { FilterAround(t, i, p); }
      Filter(t[..i], p) + ([t[i]] + Filter(t[i + 1..], p));
    }
    assert t'[..i] == t[..i] && t'[i + 1..] == t[i + 1..];
    calc {
      UserUrls(t', userId);
      Filter(t', p);
      { FilterAround(t', i, p); }
      Filter(t'[..i], p) + ([] + Filter(t'[i + 1..], p));
      { assert [] + Filter(t'[i + 1..], p) == Filter(t'[i + 1..], p); }
      Filter(t[..i], p) + Filter(t[i + 1..], p);
    }
  }

  /** Shortening adds the new record at the end of its owner's listing and
      leaves every other listing as it was. */
  lemma ListAfterShorten(t: seq<Url>, url: Url, userId: string)
    ensures UserUrls(t + [url], userId) ==
      UserUrls(t, userId) + (if url.userId == Some(userId) && url.IsLive() then [url] else [])
  {
    FilterConcat(t, [url], OwnedLive(userId));
  }

  /** The table only ever evolves: composing operations keeps every record's
      identity, never lowers a click count and never undoes a soft delete. */
  lemma EvolvesTransitive(t1: seq<Url>, t2: seq<Url>, t3: seq<Url>)
    requires Evolves(t1, t2) && Evolves(t2, t3)
    ensures Evolves(t1, t3)
  {
  }

  /** The round trip through the service: shortening and then resolving the
      same code yields the original URL and counts one click. */
  method ShortenThenFind(s: ShortUrlService, originalUrl: string, userId: Option<string>,
                         code: string, now: Timestamp)
    returns (r: Result<string, Error>)
    requires s.Valid()
    requires Resolve(s.urls, ShortKey(s.baseUrl, code)).None?
    modifies s
    ensures s.Valid()
    ensures r == Ok(originalUrl)
    ensures |s.urls| == |old(s.urls)| + 1 && s.urls[..|old(s.urls)|] == old(s.urls)
    ensures s.urls[|old(s.urls)|].clickCount == 1
  {
    var url := s.ShortenUrl(originalUrl, userId, code, now);
    ShortenThenResolve(old(s.urls), url, s.baseUrl, code);
    r := s.FindOriginalUrl(code);
  }

  /** The documented lifecycle of one link: shorten, follow, re-point,
      follow, delete, follow. */
  method Lifecycle() returns (first: Result<string, Error>, second: Result<string, Error>,
                              third: Result<string, Error>, clicks: nat)
    ensures first == Ok("https://example.com")
    ensures second == Ok("https://new.com")
    ensures third == Err(NotFound)
    ensures clicks == 2
  {
    var s := new ShortUrlService("http://localhost:4000");
    var url := s.ShortenUrl("https://example.com", Some("ownerA"), "abc123", 1);
    ShortenThenResolve([], url, s.baseUrl, "abc123");
    first := s.FindOriginalUrl("abc123");
    var key := ShortKey(s.baseUrl, "abc123");
    assert FindOwned(s.urls, url.id, "ownerA") == Some(0);
    var updated := s.UpdateUserUrl("ownerA", url.id, "https://new.com", 2);
    assert Resolve(s.urls, key) == Some(0);
    second := s.FindOriginalUrl("abc123");
    assert FindOwned(s.urls, url.id, "ownerA") == Some(0);
    ghost var before := s.urls;
    var deleted := s.DeleteUserUrl("ownerA", url.id, 3);
    clicks := s.urls[0].clickCount;
    ResolveAfterDelete(before, 0, 3, key);
    third := s.FindOriginalUrl("abc123");
  }
}
