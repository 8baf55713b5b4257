/** `com.urlshortener.model.Link`: one short link, its quota and its lifetime. */
module Links {
  import opened JavaInt
  import opened Uuids

  /** The values of a link's fields at one moment. Times are seconds on one clock. */
  datatype LinkRecord = LinkRecord(
    shortUrl: string,
    originalUrl: string,
    userId: Uuid,
    clickLimit: int32,
    currentClicks: int32,
    createdAt: int,
    expiresAt: int,
    isActive: bool)
  {
    predicate IsClickLimitReached() {
      currentClicks >= clickLimit
    }

    /** Expired once `now` is strictly after `expiresAt`. */
    predicate IsExpired(now: int) {
      now > expiresAt
    }

    predicate CanBeAccessed(now: int) {
      isActive && !IsExpired(now) && !IsClickLimitReached()
    }
  }

  /** A link is still usable at the second it expires and no longer one second later. */
  lemma ExpiryBoundary(r: LinkRecord)
    ensures !r.IsExpired(r.expiresAt) && r.IsExpired(r.expiresAt + 1)
  {
  }

  /** On a usable link, the click counted by `getOriginalUrl` exhausts the limit exactly when it
      is the last click the limit allows. */
  lemma LastClickReachesLimit(r: LinkRecord, now: int)
    requires r.CanBeAccessed(now)
    ensures r.(currentClicks := Wrap32(r.currentClicks + 1)).IsClickLimitReached()
      <==> r.currentClicks + 1 == r.clickLimit
  {
  }

  /** The live object: the service hands it out and callers change it in place. */
  class Link {
    const shortUrl: string
    var originalUrl: string
    var userId: Uuid
    var clickLimit: int32
    var currentClicks: int32
    var createdAt: int
    var expiresAt: int
    var isActive: bool

    function Record(): LinkRecord
      reads this
    {
      LinkRecord(shortUrl, originalUrl, userId, clickLimit, currentClicks, createdAt, expiresAt, isActive)
    }

    /** A new link: no clicks yet, active, created at `now`. */
    constructor (shortUrl: string, originalUrl: string, userId: Uuid, clickLimit: int32, expiresAt: int, now: int)
      ensures Record() == LinkRecord(shortUrl, originalUrl, userId, clickLimit, 0, now, expiresAt, true)
    {
      this.shortUrl := shortUrl;
      this.originalUrl := originalUrl;
      this.userId := userId;
      this.clickLimit := clickLimit;
      this.currentClicks := 0;
      this.createdAt := now;
      this.expiresAt := expiresAt;
      this.isActive := true;
    }

    method SetOriginalUrl(originalUrl: string)
      modifies this`originalUrl
      ensures Record() == old(Record()).(originalUrl := originalUrl)
    {
      this.originalUrl := originalUrl;
    }

    method SetUserId(userId: Uuid)
      modifies this`userId
      ensures Record() == old(Record()).(userId := userId)
    {
      this.userId := userId;
    }

    method SetClickLimit(clickLimit: int32)
      modifies this`clickLimit
      ensures Record() == old(Record()).(clickLimit := clickLimit)
    {
      this.clickLimit := clickLimit;
    }

    method SetCurrentClicks(currentClicks: int32)
      modifies this`currentClicks
      ensures Record() == old(Record()).(currentClicks := currentClicks)
    {
      this.currentClicks := currentClicks;
    }

    method SetCreatedAt(createdAt: int)
      modifies this`createdAt
      ensures Record() == old(Record()).(createdAt := createdAt)
    {
      this.createdAt := createdAt;
    }

    method SetExpiresAt(expiresAt: int)
      modifies this`expiresAt
      ensures Record() == old(Record()).(expiresAt := expiresAt)
    {
      this.expiresAt := expiresAt;
    }

    method SetActive(active: bool)
      modifies this`isActive
      ensures Record() == old(Record()).(isActive := active)
    {
      this.isActive := active;
    }

    /** `currentClicks++` on a Java `int`: one more click, wrapping only past `Integer.MAX_VALUE`. */
    method IncrementClicks()
      modifies this`currentClicks
      ensures old(currentClicks) < INT_MAX ==> currentClicks == old(currentClicks) + 1
      ensures Record() == old(Record()).(currentClicks := Wrap32(old(currentClicks) + 1))
    {
      currentClicks := Wrap32(currentClicks + 1);
    }

    predicate IsClickLimitReached()
      reads this
    {
      Record().IsClickLimitReached()
    }

    predicate IsExpired(now: int)
      reads this
    {
      Record().IsExpired(now)
    }

    predicate CanBeAccessed(now: int)
      reads this
    {
      Record().CanBeAccessed(now)
    }
  }
}
