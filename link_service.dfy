/** `LinkService`: the store of links by short code and of users by identifier, and the
    operations on them. The clock, `System.currentTimeMillis()`, `UUID.randomUUID()` and the
    random draws of the generator are values passed in; `saveData()` is a counter of saves. */
module LinkServices {
  import opened Wrappers
  import opened JavaInt
  import opened JavaText
  import opened Uuids
  import opened ShortUrlGenerator
  import opened Links
  import opened Users

  const DEFAULT_EXPIRATION_HOURS: int32 := 24
  /** The number of regenerations tried when a code is already stored. */
  const MAX_ATTEMPTS: nat := 10
  const SECONDS_PER_HOUR: int := 3600

  /** The exceptions `createShortLink` lets escape. */
  datatype CreateError =
    | InvalidUrl        // IllegalArgumentException: the address is null or blank
    | GeneratorFailed   // StringIndexOutOfBoundsException from the generator

  // ---------------------------------------------------------------------------------------
  // Addresses

  predicate ValidUrl(originalUrl: Option<string>) {
    originalUrl.Some? && !IsBlank(originalUrl.value)
  }

  /** An address without an `http://` or `https://` prefix gets `https://` in front. */
  function NormalizeUrl(url: string): string {
    if !StartsWith(url, "http://") && !StartsWith(url, "https://") then "https://" + url else url
  }

  /** The result always carries a scheme, an address that already had one is kept, and
      otherwise the address is only prefixed. */
  lemma NormalizeUrlSpec(url: string)
    ensures StartsWith(NormalizeUrl(url), "http://") || StartsWith(NormalizeUrl(url), "https://")
    ensures StartsWith(url, "http://") || StartsWith(url, "https://") ==> NormalizeUrl(url) == url
    ensures EndsWith(NormalizeUrl(url), url) && |NormalizeUrl(url)| <= |url| + 8
  {
  }

  /** Normalizing twice is normalizing once. */
  lemma NormalizeUrlIdempotent(url: string)
    ensures NormalizeUrl(NormalizeUrl(url)) == NormalizeUrl(url)
  {
    NormalizeUrlSpec(url);
  }

  // ---------------------------------------------------------------------------------------
  // Choosing the code: the first generated code, then up to ten regenerations while the
  // code is already stored

  /** The owner `createShortLink` resolves: the one given, or a new random identifier. */
  function OwnerId(userId: Option<Uuid>, freshId: Uuid): Uuid {
    userId.GetOr(freshId)
  }

  /** Enough values from the clock and the random source for every attempt. */
  predicate EnoughEntropy(millis: seq<nat>, draws: seq<CharIndex>) {
    |millis| >= MAX_ATTEMPTS && |draws| > MAX_ATTEMPTS
  }

  /** The `k`-th code tried: attempt 0 hashes the address itself, attempt `k` the address
      followed by the decimal clock reading taken before it. */
  function Candidate(uid: Uuid, url: string, millis: seq<nat>, draws: seq<CharIndex>, k: nat): Result<string, GenError>
    requires EnoughEntropy(millis, draws) && k <= MAX_ATTEMPTS
  {
    if k == 0 then UniqueShortUrl(uid, url, draws[0])
    else UniqueShortUrl(uid, url + NatToString(millis[k - 1]), draws[k])
  }

  /** All eleven codes that may be tried, in attempt order. */
  function Candidates(uid: Uuid, url: string, millis: seq<nat>, draws: seq<CharIndex>): (cs: seq<Result<string, GenError>>)
    requires EnoughEntropy(millis, draws)
    ensures |cs| == MAX_ATTEMPTS + 1
    ensures forall k | 0 <= k <= MAX_ATTEMPTS :: cs[k] == Candidate(uid, url, millis, draws, k)
  {
    seq(MAX_ATTEMPTS + 1, k requires 0 <= k <= MAX_ATTEMPTS => Candidate(uid, url, millis, draws, k))
  }

  /** Candidate `i` was produced and collides with a stored code. */
  predicate Taken(keys: set<string>, cs: seq<Result<string, GenError>>, i: nat)
    requires i < |cs|
  {
    cs[i].Success? && cs[i].value in keys
  }

  /** The retry loop from attempt `k`, whose code is `code`: it moves on while the code is
      stored and attempts remain. */
  function PickFrom(keys: set<string>, cs: seq<Result<string, GenError>>, k: nat, code: string): Result<string, GenError>
    requires |cs| == MAX_ATTEMPTS + 1 && k <= MAX_ATTEMPTS
    decreases MAX_ATTEMPTS - k
  {
    if code in keys && k < MAX_ATTEMPTS then
      match cs[k + 1]
      case Failure(e) => Failure(e)
      case Success(c) => PickFrom(keys, cs, k + 1, c)
    else
      Success(code)
  }

  /** The code `createShortLink` stores, or the generator's exception. */
  function PickCode(keys: set<string>, cs: seq<Result<string, GenError>>): Result<string, GenError>
    requires |cs| == MAX_ATTEMPTS + 1
  {
    match cs[0]
    case Failure(e) => Failure(e)
    case Success(c) => PickFrom(keys, cs, 0, c)
  }

  /** The retry loop stops at the first candidate that is free, or at the last one, or at the
      first exception, and every candidate before that point collided. */
  lemma {:induction false} PickFromSpec(keys: set<string>, cs: seq<Result<string, GenError>>, k: nat, code: string)
    requires |cs| == MAX_ATTEMPTS + 1 && k <= MAX_ATTEMPTS
    requires cs[k] == Success(code)
    ensures var r := PickFrom(keys, cs, k, code);
      exists j | k <= j <= MAX_ATTEMPTS ::
        cs[j] == r
        && (forall i | k <= i < j :: Taken(keys, cs, i))
        && (r.Success? && j < MAX_ATTEMPTS ==> r.value !in keys)
    decreases MAX_ATTEMPTS - k
  {
    var r := PickFrom(keys, cs, k, code);
    if code in keys && k < MAX_ATTEMPTS {
      assert Taken(keys, cs, k);
      if cs[k + 1].Failure? {
        assert cs[k + 1] == r;
      } else {
        PickFromSpec(keys, cs, k + 1, cs[k + 1].value);
        var j :| k + 1 <= j <= MAX_ATTEMPTS
          && cs[j] == r
          && (forall i | k + 1 <= i < j :: Taken(keys, cs, i))
          && (r.Success? && j < MAX_ATTEMPTS ==> r.value !in keys);
        assert forall i | k <= i < j :: Taken(keys, cs, i);
      }
    } else {
      assert cs[k] == r;
    }
  }

  /** The chosen code is the first candidate, in attempt order, that is free, or else the last;
      an exception comes from the first candidate that could not be generated. */
  lemma PickCodeSpec(keys: set<string>, cs: seq<Result<string, GenError>>)
    requires |cs| == MAX_ATTEMPTS + 1
    ensures var r := PickCode(keys, cs);
      exists j | 0 <= j <= MAX_ATTEMPTS ::
        cs[j] == r
        && (forall i | 0 <= i < j :: Taken(keys, cs, i))
        && (r.Success? && j < MAX_ATTEMPTS ==> r.value !in keys)
  {
    if cs[0].Success? {
      PickFromSpec(keys, cs, 0, cs[0].value);
    } else {
      assert cs[0] == PickCode(keys, cs);
    }
  }

  /** A stored code is chosen again, and so overwritten, only when all eleven candidates were
      produced and every one of them collided. */
  lemma PickCodeOverwrites(keys: set<string>, cs: seq<Result<string, GenError>>)
    requires |cs| == MAX_ATTEMPTS + 1
    requires PickCode(keys, cs).Success? && PickCode(keys, cs).value in keys
    ensures forall i | 0 <= i <= MAX_ATTEMPTS :: Taken(keys, cs, i)
  {
    PickCodeSpec(keys, cs);
    var r := PickCode(keys, cs);
    var j :| 0 <= j <= MAX_ATTEMPTS
      && cs[j] == r
      && (forall i | 0 <= i < j :: Taken(keys, cs, i))
      && (r.Success? && j < MAX_ATTEMPTS ==> r.value !in keys);
    assert j == MAX_ATTEMPTS && Taken(keys, cs, j);
  }

  /** Every stored code has the generator's shape for its owner. */
  lemma PickCodeShape(keys: set<string>, uid: Uuid, url: string, millis: seq<nat>, draws: seq<CharIndex>)
    requires EnoughEntropy(millis, draws)
    requires PickCode(keys, Candidates(uid, url, millis, draws)).Success?
    ensures IsShortUrlFor(PickCode(keys, Candidates(uid, url, millis, draws)).value, uid)
  {
    var cs := Candidates(uid, url, millis, draws);
    PickCodeSpec(keys, cs);
    var r := PickCode(keys, cs);
    var j :| 0 <= j <= MAX_ATTEMPTS && cs[j] == r;
    if j == 0 {
      UniqueShortUrlShape(uid, url, draws[0]);
    } else {
      UniqueShortUrlShape(uid, url + NatToString(millis[j - 1]), draws[j]);
    }
  }

  // ---------------------------------------------------------------------------------------
  // Specifications of the reads and updates

  /** `getUserLinks`: the stored links for the listed codes, in list order, skipping codes that
      are no longer stored. */
  function LookupAll<K(==), V(==)>(keys: seq<K>, m: map<K, V>): (r: seq<V>)
    ensures |r| <= |keys|
    ensures forall i | 0 <= i < |r| :: r[i] in m.Values
    ensures (forall i | 0 <= i < |keys| :: keys[i] in m) ==>
      |r| == |keys| && forall i | 0 <= i < |keys| :: r[i] == m[keys[i]]
    ensures (forall i | 0 <= i < |keys| :: keys[i] !in m) ==> r == []
  {
    if keys == [] then []
    else if keys[0] in m then [m[keys[0]]] + LookupAll(keys[1..], m)
    else LookupAll(keys[1..], m)
  }

  /** Looking up a concatenated list is looking up each part. */
  lemma {:induction false} LookupAllAppend<K, V>(a: seq<K>, b: seq<K>, m: map<K, V>)
    ensures LookupAll(a + b, m) == LookupAll(a, m) + LookupAll(b, m)
  {
    if a == [] {
      assert a + b == b;
    } else {
      assert (a + b)[0] == a[0] && (a + b)[1..] == a[1..] + b;
      LookupAllAppend(a[1..], b, m);
    }
  }

  /** A newly registered code appears at the end of its owner's list of links. */
  lemma UserLinksGrow<K, V>(owned: seq<K>, m: map<K, V>, code: K, v: V)
    requires forall i | 0 <= i < |owned| :: owned[i] != code
    ensures LookupAll(owned + [code], m[code := v]) == LookupAll(owned, m) + [v]
  {
    LookupAllAppend(owned, [code], m[code := v]);
    LookupAllUnaffected(owned, m, code, v);
  }

  lemma {:induction false} LookupAllUnaffected<K, V>(owned: seq<K>, m: map<K, V>, code: K, v: V)
    requires forall i | 0 <= i < |owned| :: owned[i] != code
    ensures LookupAll(owned, m[code := v]) == LookupAll(owned, m)
  {
    if owned != [] {
      LookupAllUnaffected(owned[1..], m, code, v);
    }
  }

  /** Why `checkLinkStatus` refuses a code, in the order it checks. */
  datatype Unavailable = NotFound | Expired | LimitReached | Deactivated

  /** The messages `checkLinkStatus` returns; `None` is its `null` for an available link. */
  function StatusMessage(status: Option<Unavailable>): (r: Option<string>)
    ensures r.None? <==> status.None?
  {
    match status
    case None => None
    case Some(NotFound) => Some("Ссылка не найдена")
    case Some(Expired) => Some("Срок действия ссылки истек")
    case Some(LimitReached) => Some("Лимит переходов исчерпан")
    case Some(Deactivated) => Some("Ссылка деактивирована")
  }

  /** `Duration.between(now, expiresAt).toHours()`: whole hours left, truncated toward zero. */
  function HoursRemaining(rec: LinkRecord, now: int): int {
    TruncDiv(rec.expiresAt - now, SECONDS_PER_HOUR)
  }

  function AbsInt(x: int): nat {
    if x < 0 then -x else x
  }

  /** A new click limit counts only when it differs from the current one. */
  predicate LimitChanged(rec: LinkRecord, newClickLimit: Option<int32>) {
    newClickLimit.Some? && newClickLimit.value != rec.clickLimit
  }

  /** A new lifetime counts only when it differs from the whole hours left by more than one. */
  predicate ExpiryChanged(rec: LinkRecord, newExpirationHours: Option<int32>, now: int) {
    newExpirationHours.Some? && AbsInt(HoursRemaining(rec, now) - newExpirationHours.value) > 1
  }

  /** The link after `updateLink`: each changed setting is taken over, and the counter is reset
      when anything changed. */
  function Updated(rec: LinkRecord, newClickLimit: Option<int32>, newExpirationHours: Option<int32>, now: int): (r: LinkRecord)
    ensures r.shortUrl == rec.shortUrl && r.originalUrl == rec.originalUrl && r.userId == rec.userId
    ensures r.createdAt == rec.createdAt && r.isActive == rec.isActive
    ensures r.clickLimit == if LimitChanged(rec, newClickLimit) then newClickLimit.value else rec.clickLimit
    ensures r.expiresAt ==
      if ExpiryChanged(rec, newExpirationHours, now) then now + newExpirationHours.value * SECONDS_PER_HOUR
      else rec.expiresAt
    ensures r.currentClicks ==
      if LimitChanged(rec, newClickLimit) || ExpiryChanged(rec, newExpirationHours, now) then 0
      else rec.currentClicks
  {
    var r1 := if LimitChanged(rec, newClickLimit) then rec.(clickLimit := newClickLimit.value) else rec;
    var r2 := if ExpiryChanged(rec, newExpirationHours, now)
      then r1.(expiresAt := now + newExpirationHours.value * SECONDS_PER_HOUR) else r1;
    if LimitChanged(rec, newClickLimit) || ExpiryChanged(rec, newExpirationHours, now)
    then r2.(currentClicks := 0) else r2
  }

  /** Repeating an update at the same moment changes nothing. */
  lemma UpdateIdempotent(rec: LinkRecord, newClickLimit: Option<int32>, newExpirationHours: Option<int32>, now: int)
    ensures var r := Updated(rec, newClickLimit, newExpirationHours, now);
      !LimitChanged(r, newClickLimit) && !ExpiryChanged(r, newExpirationHours, now)
  {
    var r := Updated(rec, newClickLimit, newExpirationHours, now);
    if ExpiryChanged(rec, newExpirationHours, now) {
      var h := newExpirationHours.value;
      assert r.expiresAt - now == h * SECONDS_PER_HOUR;
      HoursOfWholeHours(h);
    }
  }

  /** Whole hours survive the round trip through seconds. */
  lemma HoursOfWholeHours(h: int)
    ensures TruncDiv(h * SECONDS_PER_HOUR, SECONDS_PER_HOUR) == h
  {
  }

  /** A link whose lifetime was set to `h` hours at `setAt`, re-entered with the same `h` while
      it has not expired: because the hours left are truncated, this counts as a change as soon
      as more than one hour has passed. */
  lemma ExpiryTolerance(rec: LinkRecord, setAt: int, h: int32, now: int)
    requires rec.expiresAt == setAt + h * SECONDS_PER_HOUR
    requires setAt <= now <= rec.expiresAt
    ensures ExpiryChanged(rec, Some(h), now) <==> now - setAt > SECONDS_PER_HOUR
  {
    var q := HoursRemaining(rec, now);
    assert 0 <= q * SECONDS_PER_HOUR <= rec.expiresAt - now < q * SECONDS_PER_HOUR + SECONDS_PER_HOUR;
    if now == setAt {
      assert q == h;
    } else if now - setAt <= SECONDS_PER_HOUR {
      assert q == h - 1;
    } else {
      assert q <= h - 2;
    }
  }

  /** The service's invariant: every link is stored under its own code and every user under its
      own identifier, so that no link object and no user object serves two keys. */
  ghost predicate Consistent(links: map<string, Link>, users: map<Uuid, User>)
  {
    (forall k | k in links :: links[k].shortUrl == k)
    && (forall u | u in users :: users[u].id == u)
  }

  class LinkService {
    var links: map<string, Link>
    var users: map<Uuid, User>
    /** How many times `saveData()` has written the maps to disk. */
    ghost var saves: nat

    ghost predicate Valid()
      reads this`links, this`users
    {
      Consistent(links, users)
    }

    /** The state of every stored link. */
    function Links(): (r: map<string, LinkRecord>)
      reads this`links, links.Values
      ensures r.Keys == links.Keys
    {
      map k | k in links :: links[k].Record()
    }

    /** Every user's list of codes. */
    function Owners(): (r: map<Uuid, seq<string>>)
      reads this`users, users.Values
      ensures r.Keys == users.Keys
    {
      map u | u in users :: users[u].shortUrls
    }

    /** `new LinkService()`: starts from the maps `StorageService` loaded. */
    constructor (loadedLinks: map<string, Link>, loadedUsers: map<Uuid, User>)
      requires Consistent(loadedLinks, loadedUsers)
      ensures Valid() && links == loadedLinks && users == loadedUsers && saves == 0
    {
      links := loadedLinks;
      users := loadedUsers;
      saves := 0;
    }

    method SaveData()
      modifies this`saves
      ensures saves == old(saves) + 1
    {
      saves := saves + 1;
    }

    /** `shutdown()`: a final save (the timer is not modelled). */
    method Shutdown()
      modifies this`saves
      ensures saves == old(saves) + 1
    {
      SaveData();
    }

    /** Lines 84-92 of `createShortLink`: the generated code, regenerated from the address
        followed by the clock reading while it is already stored and fewer than ten
        regenerations were made. */
    method ChooseCode(uid: Uuid, url: string, millis: seq<nat>, draws: seq<CharIndex>)
      returns (r: Result<string, GenError>)
      requires EnoughEntropy(millis, draws)
      ensures r == PickCode(links.Keys, Candidates(uid, url, millis, draws))
    {
      ghost var cs := Candidates(uid, url, millis, draws);
      var gen := GenerateUniqueShortUrl(uid, url, draws[0]);
      assert gen == cs[0];
      if gen.Failure? {
        return gen;
      }
      var shortUrl := gen.value;
      var attempts := 0;
      while shortUrl in links && attempts < MAX_ATTEMPTS
        invariant 0 <= attempts <= MAX_ATTEMPTS
        invariant cs[attempts] == Success(shortUrl)
        invariant PickFrom(links.Keys, cs, attempts, shortUrl) == PickCode(links.Keys, cs)
      {
        gen := GenerateUniqueShortUrl(uid, url + NatToString(millis[attempts]), draws[attempts + 1]);
        assert gen == cs[attempts + 1];
        if gen.Failure? {
          return gen;
        }
        shortUrl := gen.value;
        attempts := attempts + 1;
      }
      return Success(shortUrl);
    }

    /** Lines 71-82 of `createShortLink`: the user with the given identifier, registered anew
        when unknown, or a new user with a random identifier when none is given. */
    method ResolveUser(userId: Option<Uuid>, freshId: Uuid) returns (user: User)
      requires Valid()
      modifies this`users
      ensures Valid() && user.id == OwnerId(userId, freshId)
      ensures users == old(users)[user.id := user]
      ensures userId.Some? && userId.value in old(users) ==> user == old(users)[userId.value]
      ensures !(userId.Some? && userId.value in old(users)) ==> fresh(user) && user.shortUrls == []
    {
      if userId.None? {
        user := new User(freshId);
        users := users[user.id := user];
      } else if userId.value !in users {
        user := new User(userId.value);
        users := users[user.id := user];
      } else {
        user := users[userId.value];
      }
    }

    /** Lines 94-103 of `createShortLink`: a new active link for `shortUrl`, stored under that
        code (replacing any link stored there) and appended to its owner's list, then a save. */
    method StoreLink(user: User, shortUrl: string, url: string, clickLimit: int32, expiresAt: int, now: int)
      requires Valid() && user.id in users && users[user.id] == user
      modifies this`links, this`saves, user`shortUrls
      ensures Valid()
      ensures shortUrl in links && links == old(links)[shortUrl := links[shortUrl]] && fresh(links[shortUrl])
      ensures links[shortUrl].Record() == LinkRecord(shortUrl, url, user.id, clickLimit, 0, now, expiresAt, true)
      ensures user.shortUrls == old(user.shortUrls) + [shortUrl]
      ensures saves == old(saves) + 1
    {
      var link := new Link(shortUrl, url, user.id, clickLimit, expiresAt, now);
      links := links[shortUrl := link];
      user.AddShortUrl(shortUrl);
      SaveData();
    }

    /** `createShortLink(originalUrl, userId, clickLimit, expirationHours)`. */
    method CreateShortLink(originalUrl: Option<string>, userId: Option<Uuid>, clickLimit: int32,
                           expirationHours: int32, now: int, freshId: Uuid,
                           millis: seq<nat>, draws: seq<CharIndex>)
      returns (r: Result<string, CreateError>)
      requires Valid() && EnoughEntropy(millis, draws)
      modifies this, if userId.Some? && userId.value in users then {users[userId.value]} else {}
      ensures Valid()
      ensures !ValidUrl(originalUrl) ==>
        r == Failure(InvalidUrl) && links == old(links) && users == old(users) && saves == old(saves)
        && (userId.Some? && userId.value in users ==> unchanged(users[userId.value]))
      ensures ValidUrl(originalUrl) ==>
        var url := NormalizeUrl(originalUrl.value);
        var uid := OwnerId(userId, freshId);
        var known := userId.Some? && uid in old(users);
        var pick := PickCode(old(links).Keys, Candidates(uid, url, millis, draws));
        && uid in users && users == old(users)[uid := users[uid]]
        && (known ==> users[uid] == old(users)[uid])
        && (!known ==> fresh(users[uid]))
        && (pick.Failure? ==>
              && r == Failure(GeneratorFailed) && links == old(links) && saves == old(saves)
              && users[uid].shortUrls == if known then old(users[uid].shortUrls) else [])
        && (pick.Success? ==>
              && r == Success(pick.value)
              && pick.value in links && links == old(links)[pick.value := links[pick.value]]
              && fresh(links[pick.value])
              && links[pick.value].Record()
                 == LinkRecord(pick.value, url, uid, clickLimit, 0, now, now + expirationHours * SECONDS_PER_HOUR, true)
              && users[uid].shortUrls == (if known then old(users[uid].shortUrls) else []) + [pick.value]
              && saves == old(saves) + 1)
    {
      if !ValidUrl(originalUrl) {
        return Failure(InvalidUrl);
      }
      var url := NormalizeUrl(originalUrl.value);
      var user := ResolveUser(userId, freshId);
      var gen := ChooseCode(user.id, url, millis, draws);
      if gen.Failure? {
        return Failure(GeneratorFailed);
      }
      StoreLink(user, gen.value, url, clickLimit, now + expirationHours * SECONDS_PER_HOUR, now);
      return Success(gen.value);
    }

    /** `getOriginalUrl(shortUrl)`: the address behind an accessible link, counting the click.
        Only that link object may change. */
    method GetOriginalUrl(shortUrl: string, now: int) returns (r: Option<string>)
      requires Valid()
      modifies this`saves, if shortUrl in links then {links[shortUrl]} else {}
      ensures Valid() && links == old(links) && users == old(users)
      ensures r.Some? <==> shortUrl in links && old(links[shortUrl].Record()).CanBeAccessed(now)
      ensures r.Some? ==>
        var rec := old(links[shortUrl].Record());
        r.value == rec.originalUrl && rec.currentClicks < rec.clickLimit
        && links[shortUrl].Record() == rec.(currentClicks := rec.currentClicks + 1)
        && saves == old(saves) + 1
      ensures r.None? ==> saves == old(saves) && (shortUrl in links ==> unchanged(links[shortUrl]))
    {
      if shortUrl !in links {
        return None;
      }
      var link := links[shortUrl];
      if !link.CanBeAccessed(now) {
        return None;
      }
      link.IncrementClicks();
      SaveData();
      return Some(link.originalUrl);
    }

    /** `getLinkInfo(shortUrl)`: the live link object, through which callers may change it. */
    function GetLinkInfo(shortUrl: string): (r: Option<Link>)
      reads this, links.Values
      ensures r.Some? <==> shortUrl in links
      ensures r.Some? ==> r.value == links[shortUrl]
    {
      if shortUrl in links then Some(links[shortUrl]) else None
    }

    /** `getUserLinks(userId)`. */
    function GetUserLinks(userId: Uuid): (r: seq<Link>)
      reads this, users.Values
      ensures userId !in users ==> r == []
      ensures userId in users ==> |r| <= |Owners()[userId]|
      ensures forall i | 0 <= i < |r| :: r[i] in links.Values
    {
      if userId !in users then [] else LookupAll(users[userId].shortUrls, links)
    }

    /** `checkLinkStatus(shortUrl)`, checking for absence, expiry, the click limit and
        deactivation in that order. */
    function CheckLinkStatus(shortUrl: string, now: int): (r: Option<Unavailable>)
      reads this, links.Values
      ensures r.None? <==> shortUrl in Links() && Links()[shortUrl].CanBeAccessed(now)
      ensures r == Some(NotFound) <==> shortUrl !in links
      ensures r == Some(Expired) <==> shortUrl in links && Links()[shortUrl].IsExpired(now)
      ensures r == Some(LimitReached) <==>
        shortUrl in links && !Links()[shortUrl].IsExpired(now) && Links()[shortUrl].IsClickLimitReached()
      ensures r == Some(Deactivated) <==>
        shortUrl in links && !Links()[shortUrl].IsExpired(now) && !Links()[shortUrl].IsClickLimitReached()
        && !Links()[shortUrl].isActive
    {
      if shortUrl !in links then Some(NotFound)
      else
        var link := links[shortUrl];
        if link.IsExpired(now) then Some(Expired)
        else if link.IsClickLimitReached() then Some(LimitReached)
        else if !link.isActive then Some(Deactivated)
        else None
    }

    /** `updateLink(shortUrl, userId, newClickLimit, newExpirationHours)`: only the owner may
        change a link, and the counter is reset only when a setting really changed. Only that
        link object may change. */
    method UpdateLink(shortUrl: string, userId: Uuid, newClickLimit: Option<int32>,
                      newExpirationHours: Option<int32>, now: int)
      returns (updated: bool)
      requires Valid()
      modifies this`saves, if shortUrl in links then {links[shortUrl]} else {}
      ensures Valid() && links == old(links) && users == old(users)
      ensures updated <==>
        shortUrl in links && old(links[shortUrl].userId) == userId
        && (LimitChanged(old(links[shortUrl].Record()), newClickLimit)
            || ExpiryChanged(old(links[shortUrl].Record()), newExpirationHours, now))
      ensures updated ==>
        links[shortUrl].Record() == Updated(old(links[shortUrl].Record()), newClickLimit, newExpirationHours, now)
        && saves == old(saves) + 1
      ensures !updated ==> saves == old(saves) && (shortUrl in links ==> unchanged(links[shortUrl]))
    {
      if shortUrl !in links {
        return false;
      }
      var link := links[shortUrl];
      if link.userId != userId {
        return false;
      }
      ghost var rec := link.Record();
      var clickLimitChanged := false;
      var expirationChanged := false;
      if newClickLimit.Some? && newClickLimit.value != link.clickLimit {
        link.SetClickLimit(newClickLimit.value);
        clickLimitChanged := true;
      }
      if newExpirationHours.Some? {
        var newExpiresAt := now + newExpirationHours.value * SECONDS_PER_HOUR;
        var currentHoursRemaining := TruncDiv(link.expiresAt - now, SECONDS_PER_HOUR);
        if AbsInt(currentHoursRemaining - newExpirationHours.value) > 1 {
          link.SetExpiresAt(newExpiresAt);
          expirationChanged := true;
        }
      }
      if clickLimitChanged || expirationChanged {
        link.SetCurrentClicks(0);
        SaveData();
        return true;
      }
      return false;
    }

    /** The codes of the links expired at `now`. */
    function ExpiredNow(now: int): set<string>
      reads this`links, links.Values
    {
      set k | k in links && links[k].IsExpired(now)
    }

    /** One iteration of `cleanupExpiredLinks`: the link leaves the map and its code leaves its
        owner's list, when the owner is known. The ghost parameters carry the loop's account of
        every user's list: the list at the start without the codes already handled. */
    method RemoveLink(shortUrl: string, ghost codes: set<string>, ghost todo: set<string>,
                      ghost orig: map<string, Link>, ghost start: map<Uuid, seq<string>>,
                      ghost ownerOf: map<string, Uuid>)
      requires Valid() && shortUrl in links && shortUrl in todo && todo <= codes
      requires links == orig - (codes - todo)
      requires shortUrl in ownerOf && ownerOf[shortUrl] == links[shortUrl].userId
      requires ListsAfter(start, ownerOf, todo)
      modifies this`links, (if links[shortUrl].userId in users then {users[links[shortUrl].userId]} else {})`shortUrls
      ensures Valid() && links == old(links) - {shortUrl} && links == orig - (codes - (todo - {shortUrl}))
      ensures var owner := old(links[shortUrl].userId);
        owner in users ==> users[owner].shortUrls == RemoveFirst(old(users[owner].shortUrls), shortUrl)
      ensures ListsAfter(start, ownerOf, todo - {shortUrl})
    {
      var link := links[shortUrl];
      MapRemoveStep(orig, links, codes, todo, shortUrl);
      links := links - {shortUrl};
      if link.userId in users {
        var user := users[link.userId];
        user.RemoveShortUrl(shortUrl);
      }
      forall u | u in users
        ensures u in start && users[u].shortUrls == RemoveFirstOfEach(start[u], OwnedBy(ownerOf, u) - (todo - {shortUrl}))
      {
        if u == link.userId {
          RemoveStep(start[u], OwnedBy(ownerOf, u), todo, shortUrl);
        } else {
          assert users[u].shortUrls == old(users[u].shortUrls);
          assert OwnedBy(ownerOf, u) - todo == OwnedBy(ownerOf, u) - (todo - {shortUrl});
        }
      }
    }

    /** The codes among `codes` of the stored links that belong to `owner`. */
    function OwnedAmong(codes: set<string>, owner: Uuid): set<string>
      reads this`links, links.Values
    {
      set k | k in codes && k in links && links[k].userId == owner
    }

    /** The loop of `cleanupExpiredLinks` over the collected codes: each link leaves the map and
        its code leaves its owner's list. Link objects are not changed. */
    method RemoveAll(codes: set<string>)
      requires Valid() && codes <= links.Keys
      modifies this`links, users.Values`shortUrls
      ensures Valid() && users == old(users)
      ensures links == old(links) - codes
      ensures forall u | u in users ::
        users[u].shortUrls == RemoveFirstOfEach(old(users[u].shortUrls), old(OwnedAmong(codes, u)))
    {
      ghost var start := Owners();
      ghost var ownerOf := map k | k in codes :: links[k].userId;
      forall u | u in users
        ensures u in start && users[u].shortUrls == RemoveFirstOfEach(start[u], OwnedBy(ownerOf, u) - codes)
      {
        OwnedWithin(ownerOf, u, codes);
      }
      ghost var owned := map u | u in users :: OwnedAmong(codes, u);
      forall u | u in users
        ensures OwnedBy(ownerOf, u) == owned[u]
      {
      }
      RemoveEach(codes, start, ownerOf);
      forall u | u in users
        ensures users[u].shortUrls == RemoveFirstOfEach(start[u], owned[u])
      {
        assert OwnedBy(ownerOf, u) - {} == owned[u];
      }
    }

    /** The loop itself, with the owner of every code and the lists at the start as ghost
        parameters: afterwards every list has lost the codes that its user owns. */
    method RemoveEach(codes: set<string>, ghost start: map<Uuid, seq<string>>, ghost ownerOf: map<string, Uuid>)
      requires Valid() && codes <= links.Keys
      requires forall k | k in codes :: k in ownerOf && ownerOf[k] == links[k].userId
      requires ListsAfter(start, ownerOf, codes)
      modifies this`links, users.Values`shortUrls
      ensures Valid() && users == old(users)
      ensures links == old(links) - codes
      ensures ListsAfter(start, ownerOf, {})
    {
      var todo := codes;
      while todo != {}
        invariant todo <= codes
        invariant links == old(links) - (codes - todo)
        invariant users == old(users)
        invariant ListsAfter(start, ownerOf, todo)
        decreases todo
      {
        var shortUrl :| shortUrl in todo;
        assert links[shortUrl] == old(links)[shortUrl];
        RemoveLink(shortUrl, codes, todo, old(links), start, ownerOf);
        todo := todo - {shortUrl};
      }
    }

    /** Every user's list is its list at the start with the codes in `ownerOf` that it owns and
        that are no longer in `todo` removed. */
    ghost predicate ListsAfter(start: map<Uuid, seq<string>>, ownerOf: map<string, Uuid>, todo: set<string>)
      reads this`users, users.Values
    {
      forall u | u in users :: u in start && users[u].shortUrls == RemoveFirstOfEach(start[u], OwnedBy(ownerOf, u) - todo)
    }

    /** `cleanupExpiredLinks()`: removes every link expired at `now` and its code from its
        owner's list, and saves if anything was removed. */
    method CleanupExpiredLinks(now: int)
      requires Valid()
      modifies this`links, this`saves, users.Values`shortUrls
      ensures Valid() && users == old(users)
      ensures links == old(links) - old(ExpiredNow(now))
      ensures forall k | k in links :: !links[k].IsExpired(now)
      ensures forall u | u in users ::
        users[u].shortUrls == RemoveFirstOfEach(old(users[u].shortUrls), old(OwnedAmong(ExpiredNow(now), u)))
      ensures saves == if old(ExpiredNow(now)) == {} then old(saves) else old(saves) + 1
    {
      var expiredUrls := ExpiredNow(now);
      RemoveAll(expiredUrls);
      forall k | k in links
        ensures !links[k].IsExpired(now)
      {
        assert links[k] == old(links)[k] && k !in expiredUrls;
        assert !old(links[k].IsExpired(now));
      }
      if expiredUrls != {} {
        SaveData();
      }
    }
  }

  /** The codes that `ownerOf` assigns to `owner`. */
  function OwnedBy(ownerOf: map<string, Uuid>, owner: Uuid): set<string> {
    set k | k in ownerOf && ownerOf[k] == owner
  }

  /** One iteration of the clean-up removes one more expired key from the map. */
  lemma MapRemoveStep<K, V>(m0: map<K, V>, m: map<K, V>, e: set<K>, todo: set<K>, k: K)
    requires m == m0 - (e - todo) && k in todo && todo <= e
    ensures m - {k} == m0 - (e - (todo - {k}))
  {
    assert e - (todo - {k}) == (e - todo) + {k};
  }

  /** One iteration of the clean-up removes the first occurrence of one more expired code. */
  lemma OwnedWithin(ownerOf: map<string, Uuid>, owner: Uuid, codes: set<string>)
    requires ownerOf.Keys <= codes
    ensures OwnedBy(ownerOf, owner) - codes == {}
  {
  }

  lemma RemoveStep(s: seq<string>, d: set<string>, todo: set<string>, code: string)
    requires code in d && code in todo
    ensures RemoveFirst(RemoveFirstOfEach(s, d - todo), code) == RemoveFirstOfEach(s, d - (todo - {code}))
  {
    assert d - (todo - {code}) == (d - todo) + {code};
    RemoveFirstOfEachStep(s, d - todo, code);
  }
}
