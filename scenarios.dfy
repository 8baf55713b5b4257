/** Sequences of service calls that the repository's tests exercise. */
module Scenarios {
  import opened Wrappers
  import opened Links
  import opened LinkServices

  /** A fresh link with a limit of two clicks opens twice; the third attempt is refused and the
      limit is then reached. */
  method ThirdClickRefused(service: LinkService, code: string, now: int)
    returns (first: Option<string>, second: Option<string>, third: Option<string>)
    requires service.Valid() && code in service.links
    requires var rec := service.links[code].Record();
      rec.clickLimit == 2 && rec.currentClicks == 0 && rec.isActive && !rec.IsExpired(now)
    modifies service`saves, service.links[code]
    ensures first == second == Some(old(service.links[code].originalUrl)) && third.None?
    ensures service.links == old(service.links)
    ensures service.links[code].Record().IsClickLimitReached()
    ensures service.links[code].currentClicks == 2
  {
    first := service.GetOriginalUrl(code, now);
    second := service.GetOriginalUrl(code, now);
    third := service.GetOriginalUrl(code, now);
  }

  /** The object `getLinkInfo` returns is the stored link: moving its expiry into the past
      through it makes the service refuse the link. */
  method ExpiredThroughLinkInfo(service: LinkService, code: string, now: int)
    returns (url: Option<string>)
    requires service.Valid() && code in service.links
    modifies service`saves, service.links[code]
    ensures url.None? && service.links[code].IsExpired(now)
    ensures service.links == old(service.links) && service.saves == old(service.saves)
  {
    var info := service.GetLinkInfo(code);
    var link := info.value;
    link.SetExpiresAt(now - SECONDS_PER_HOUR);
    assert !link.CanBeAccessed(now);
    url := service.GetOriginalUrl(code, now);
  }

  /** A link with a limit of one click reports the exhausted limit after one click. */
  method StatusAfterLastClick(service: LinkService, code: string, now: int)
    returns (url: Option<string>, status: Option<string>)
    requires service.Valid() && code in service.links
    requires var rec := service.links[code].Record();
      rec.clickLimit == 1 && rec.currentClicks == 0 && rec.isActive && !rec.IsExpired(now)
    modifies service`saves, service.links[code]
    ensures url.Some? && status == Some("Лимит переходов исчерпан")
  {
    url := service.GetOriginalUrl(code, now);
    status := StatusMessage(service.CheckLinkStatus(code, now));
  }
}
