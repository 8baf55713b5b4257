/** `ShortUrlGenerator`: codes of the form `clck.ru/` + two characters of the owner's identifier +
    four characters from a 62-symbol alphabet. `SecureRandom.nextInt(62)` is a value passed in. */
module ShortUrlGenerator {
  import opened Wrappers
  import opened JavaInt
  import opened JavaHash
  import opened Uuids

  const BASE_URL: string := "clck.ru/"
  const CHARACTERS: string := "ABCDEFGHIJKLMNOPQRSTUVWXYZabcdefghijklmnopqrstuvwxyz0123456789"
  const SHORT_URL_LENGTH: nat := 6
  /** Length of a whole short link: the base, two identifier characters and four code characters. */
  const CODE_LENGTH: nat := 14

  /** One result of `random.nextInt(CHARACTERS.length())`. */
  type CharIndex = i: int | 0 <= i < 62

  /** `charAt` with an index outside the alphabet: `StringIndexOutOfBoundsException`. */
  datatype GenError = IndexOutOfBounds

  /** `userId.toString().replace("-", "").substring(0, 2)`: the identifier's first two hex digits. */
  function UserIdHash(u: Uuid): (r: string)
    ensures |r| == 2
  {
    RemoveDashesOfToString(u);
    RemoveDashes(ToString(u))[..2]
  }

  /** The two characters are the first two hex digits of `userId.toString()`. */
  lemma UserIdHashIsPrefix(u: Uuid)
    ensures UserIdHash(u) == ToString(u)[..2] && AllHex(UserIdHash(u))
  {
    RemoveDashesOfToString(u);
    var d := RemoveDashes(ToString(u));
    assert d[..2] == d[..8][..2];
    assert ToString(u)[..2] == ToString(u)[..8][..2];
  }

  predicate InAlphabet(c: char) {
    c in CHARACTERS
  }

  /** The shape every generated link has for owner `u`. */
  predicate IsShortUrlFor(s: string, u: Uuid) {
    |s| == CODE_LENGTH && s[..8] == BASE_URL && s[8..10] == UserIdHash(u)
    && forall i | 10 <= i < CODE_LENGTH :: InAlphabet(s[i])
  }

  /** The owner can be read back from a link: equal links have equal identifier prefixes. */
  lemma SameLinkSamePrefix(s: string, u: Uuid, v: Uuid)
    requires IsShortUrlFor(s, u) && IsShortUrlFor(s, v)
    ensures UserIdHash(u) == UserIdHash(v)
  {
  }

  /** Owners whose identifiers start with different hex digits can never get the same link. */
  lemma DistinctPrefixesDistinctLinks(s: string, t: string, u: Uuid, v: Uuid)
    requires IsShortUrlFor(s, u) && IsShortUrlFor(t, v)
    requires UserIdHash(u) != UserIdHash(v)
    ensures s != t
  {
    assert s[8..10] != t[8..10];
  }

  /** The link `generateShortUrl` builds from the four random draws. */
  function RandomShortUrl(u: Uuid, draws: seq<CharIndex>): string
    requires |draws| == SHORT_URL_LENGTH - 2
  {
    BASE_URL + UserIdHash(u) + [CHARACTERS[draws[0]], CHARACTERS[draws[1]], CHARACTERS[draws[2]], CHARACTERS[draws[3]]]
  }

  /** A random link has the generator's shape, and its code characters are the drawn ones. */
  lemma RandomShortUrlShape(u: Uuid, draws: seq<CharIndex>)
    requires |draws| == SHORT_URL_LENGTH - 2
    ensures var r := RandomShortUrl(u, draws);
      IsShortUrlFor(r, u) && forall j | 0 <= j < 4 :: r[10 + j] == CHARACTERS[draws[j]]
  {
  }

  /** Every link of the right shape for `u` is the outcome of some four draws. */
  lemma RandomShortUrlCoversShape(s: string, u: Uuid)
    requires IsShortUrlFor(s, u)
    ensures exists draws: seq<CharIndex> | |draws| == 4 :: RandomShortUrl(u, draws) == s
  {
    var ds: seq<CharIndex> := [DrawOf(s[10]), DrawOf(s[11]), DrawOf(s[12]), DrawOf(s[13])];
    SplitLink(s);
    assert RandomShortUrl(u, ds) == s;
  }

  /** The draw that yields an alphabet character. */
  ghost function DrawOf(c: char): (k: CharIndex)
    requires InAlphabet(c)
    ensures CHARACTERS[k] == c
  {
    var k :| 0 <= k < |CHARACTERS| && CHARACTERS[k] == c;
    k
  }

  /** A link of the generator's length is its base, its two owner characters and its code. */
  lemma SplitLink(s: string)
    requires |s| == CODE_LENGTH
    ensures s == s[..8] + s[8..10] + [s[10], s[11], s[12], s[13]]
  {
    assert s[10..] == [s[10], s[11], s[12], s[13]];
    assert s == s[..8] + s[8..10] + s[10..];
  }

  /** `generateShortUrl(userId)`. */
  method GenerateShortUrl(userId: Uuid, draws: seq<CharIndex>) returns (r: string)
    requires |draws| == SHORT_URL_LENGTH - 2
    ensures r == RandomShortUrl(userId, draws)
  {
    var shortCode: string := [];
    var userIdHash := UserIdHash(userId);
    for i := 0 to SHORT_URL_LENGTH - 2
      invariant |shortCode| == i
      invariant forall j | 0 <= j < i :: shortCode[j] == CHARACTERS[draws[j]]
    {
      shortCode := shortCode + [CHARACTERS[draws[i]]];
    }
    assert shortCode == [CHARACTERS[draws[0]], CHARACTERS[draws[1]], CHARACTERS[draws[2]], CHARACTERS[draws[3]]];
    r := BASE_URL + userIdHash + shortCode;
  }

  /** `Math.abs(combined.hashCode())` for `userId.toString() + originalUrl`. */
  function HashValue(u: Uuid, originalUrl: string): int32 {
    Abs32(HashCode(ToString(u) + originalUrl))
  }

  /** The link built from the identifier prefix and the hash value: the last three code
      characters follow the hash, the first is the random draw, and the call throws when
      `hashValue + i` leaves the non-negative `int` range for some `i` below 4. */
  function HashedShortUrl(prefix: string, h: int32, draw: CharIndex): Result<string, GenError> {
    if 0 <= h <= INT_MAX - 3 then
      Success(BASE_URL + prefix + [CHARACTERS[draw], CHARACTERS[(h + 1) % 62], CHARACTERS[(h + 2) % 62], CHARACTERS[(h + 3) % 62]])
    else
      Failure(IndexOutOfBounds)
  }

  /** Reference definition of `generateUniqueShortUrl`. */
  function UniqueShortUrl(u: Uuid, originalUrl: string, draw: CharIndex): Result<string, GenError> {
    HashedShortUrl(UserIdHash(u), HashValue(u, originalUrl), draw)
  }

  /** A generated link has the generator's shape, and its first code character is the draw. */
  lemma UniqueShortUrlShape(u: Uuid, url: string, draw: CharIndex)
    requires UniqueShortUrl(u, url, draw).Success?
    ensures IsShortUrlFor(UniqueShortUrl(u, url, draw).value, u)
    ensures UniqueShortUrl(u, url, draw).value[10] == CHARACTERS[draw]
  {
  }

  /** Whether the call throws does not depend on the random draw. */
  lemma UniqueShortUrlFailureIgnoresDraw(u: Uuid, url: string, d1: CharIndex, d2: CharIndex)
    ensures UniqueShortUrl(u, url, d1).Failure? <==> UniqueShortUrl(u, url, d2).Failure?
  {
  }

  /** Two calls for the same owner and address differ at most in the random character. */
  lemma UniqueShortUrlDeterministicTail(u: Uuid, url: string, d1: CharIndex, d2: CharIndex)
    requires UniqueShortUrl(u, url, d1).Success?
    ensures UniqueShortUrl(u, url, d2).Success?
    ensures UniqueShortUrl(u, url, d2).value == UniqueShortUrl(u, url, d1).value[10 := CHARACTERS[d2]]
  {
    HashedDrawOnly(UserIdHash(u), HashValue(u, url), d1, d2);
  }

  lemma HashedDrawOnly(prefix: string, h: int32, d1: CharIndex, d2: CharIndex)
    requires |prefix| == 2 && HashedShortUrl(prefix, h, d1).Success?
    ensures HashedShortUrl(prefix, h, d2).Success?
    ensures HashedShortUrl(prefix, h, d2).value == HashedShortUrl(prefix, h, d1).value[10 := CHARACTERS[d2]]
  {
    var t := [CHARACTERS[(h + 1) % 62], CHARACTERS[(h + 2) % 62], CHARACTERS[(h + 3) % 62]];
    var p := BASE_URL + prefix;
    assert HashedShortUrl(prefix, h, d1).value == p + ([CHARACTERS[d1]] + t);
    assert HashedShortUrl(prefix, h, d2).value == p + ([CHARACTERS[d2]] + t);
    assert (p + ([CHARACTERS[d1]] + t))[10 := CHARACTERS[d2]] == p + ([CHARACTERS[d2]] + t);
  }

  /** The `i`-th index `(hashValue + i) % 62` is usable exactly while `hashValue + i` stays a
      non-negative `int`; the first sum past `Integer.MAX_VALUE` wraps to `Integer.MIN_VALUE`,
      whose remainder is `-2`. */
  lemma CodeIndex(h: int32, i: nat)
    requires h >= 0 || h == INT_MIN
    requires i < 4
    requires i > 0 ==> 0 <= h && h + i - 1 <= INT_MAX
    ensures Rem(Wrap32(h + i), 62) >= 0 <==> 0 <= h && h + i <= INT_MAX
    ensures 0 <= h && h + i <= INT_MAX ==> Rem(Wrap32(h + i), 62) == (h + i) % 62
  {
    if !(0 <= h && h + i <= INT_MAX) {
      assert Wrap32(h + i) == INT_MIN;
      assert TruncDiv(INT_MIN, 62) == -34636833;
    }
  }

  /** Which hashes make `Math.abs(hash) + 3` leave the non-negative `int` range. */
  lemma AbsHashInRange(hash: int32)
    ensures 0 <= Abs32(hash) <= INT_MAX - 3 <==>
      !(hash == INT_MIN || hash <= -(INT_MAX - 2) || hash >= INT_MAX - 2)
  {
  }

  /** `generateUniqueShortUrl` throws exactly for the hashes `Integer.MIN_VALUE` and those of
      magnitude at least `2^31 - 3`. */
  lemma UniqueShortUrlFailsIff(u: Uuid, url: string, draw: CharIndex)
    ensures UniqueShortUrl(u, url, draw).Failure? <==>
      var hash := HashCode(ToString(u) + url);
      hash == INT_MIN || hash <= -(INT_MAX - 2) || hash >= INT_MAX - 2
  {
    AbsHashInRange(HashCode(ToString(u) + url));
  }

  /** The first `n` code characters follow the hash value. */
  predicate HashedPrefix(code: string, h: int, n: nat) {
    |code| == n && forall j | 0 <= j < n :: code[j] == CHARACTERS[(h + j) % 62]
  }

  /** Replacing the first character of the hashed code by the random one gives the link
      `HashedShortUrl` describes. */
  lemma HashedCodeWithDraw(prefix: string, code: string, h: int32, draw: CharIndex)
    requires 0 <= h <= INT_MAX - 3 && HashedPrefix(code, h, 4)
    ensures HashedShortUrl(prefix, h, draw) == Success(BASE_URL + prefix + code[0 := CHARACTERS[draw]])
  {
    var c := code[0 := CHARACTERS[draw]];
    assert c[1] == CHARACTERS[(h + 1) % 62] && c[2] == CHARACTERS[(h + 2) % 62] && c[3] == CHARACTERS[(h + 3) % 62];
    assert c == [CHARACTERS[draw], CHARACTERS[(h + 1) % 62], CHARACTERS[(h + 2) % 62], CHARACTERS[(h + 3) % 62]];
  }

  lemma HashedPrefixStep(code: string, h: int, n: nat)
    requires HashedPrefix(code, h, n)
    ensures HashedPrefix(code + [CHARACTERS[(h + n) % 62]], h, n + 1)
  {
  }

  /** `generateUniqueShortUrl(userId, originalUrl)`, with the one `nextInt` result passed in. */
  method GenerateUniqueShortUrl(userId: Uuid, originalUrl: string, draw: CharIndex)
    returns (r: Result<string, GenError>)
    ensures r == UniqueShortUrl(userId, originalUrl, draw)
  {
    var combined := ToString(userId) + originalUrl;
    var hash := HashCode(combined);
    var shortCode: string := [];
    var userIdHash := UserIdHash(userId);
    var hashValue := Abs32(hash);
    for i := 0 to SHORT_URL_LENGTH - 2
      invariant i > 0 ==> 0 <= hashValue && hashValue + i - 1 <= INT_MAX
      invariant HashedPrefix(shortCode, hashValue, i)
    {
      var index := Rem(Wrap32(hashValue + i), |CHARACTERS|);
      CodeIndex(hashValue, i);
      if index < 0 {
        // `charAt` of a negative index throws
        return Failure(IndexOutOfBounds);
      }
      HashedPrefixStep(shortCode, hashValue, i);
      shortCode := shortCode + [CHARACTERS[index]];
    }
    HashedCodeWithDraw(userIdHash, shortCode, hashValue, draw);
    shortCode := shortCode[0 := CHARACTERS[draw]];
    r := Success(BASE_URL + userIdHash + shortCode);
  }
}
