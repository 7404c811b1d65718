/** The flag image cache: an insertion-ordered dictionary from the currency
    code, exactly as the caller spelled it, to a decoded flag image. A miss is
    resolved from a bundled file for EUR and over HTTP for every other code;
    images are decoded only by the outside world, so the bundled file, its
    decoding and the HTTP responses are inputs here. */
module CountryFlags {
  import opened Values

  /** Stands for a decoded 16x16 flag bitmap; only its identity matters. */
  datatype Bitmap = Bitmap(handle: nat)

  /** What requests.get(url) followed by decoding the body gives: an exception
      from the transport, or a status with the decoded image (None when the
      image decoder raises). */
  datatype HttpOutcome = TransportError | Response(status: int, image: Option<Bitmap>)

  /** The outside world a resolution consults: whether the bundled EU flag
      file exists, what decoding it gives (None when it raises), and the
      response for each URL. */
  datatype FlagSource = FlagSource(
    localFlagExists: bool,
    localFlag: Option<Bitmap>,
    http: string -> HttpOutcome)

  /** An OrderedDict: its keys in insertion order and the value of each key. */
  datatype OrderedMap = OrderedMap(keys: seq<string>, values: map<string, Bitmap>)

  const Empty := OrderedMap([], map[])

  ghost predicate WellFormed(m: OrderedMap) {
    (forall i, j :: 0 <= i < j < |m.keys| ==> m.keys[i] != m.keys[j]) &&
    (forall k :: k in m.values <==> k in m.keys)
  }

  /** len() of the dictionary. */
  function Size(m: OrderedMap): nat {
    |m.keys|
  }

  /** d[k] = v: a new key goes last, an existing key keeps its place. */
  function Put(m: OrderedMap, k: string, v: Bitmap): (r: OrderedMap)
    requires WellFormed(m)
    ensures WellFormed(r) && r.values == m.values[k := v]
    ensures k in m.values ==> r.keys == m.keys
    ensures k !in m.values ==> r.keys == m.keys + [k]
  {
    if k in m.values then OrderedMap(m.keys, m.values[k := v])
    else OrderedMap(m.keys + [k], m.values[k := v])
  }

  /** popitem(last=False): removes the oldest entry; None is the KeyError an
      empty dictionary raises. */
  function PopOldest(m: OrderedMap): (r: Option<OrderedMap>)
    requires WellFormed(m)
    ensures r.None? <==> m.keys == []
    ensures r.Some? ==> WellFormed(r.value) && r.value.keys == m.keys[1..] &&
                        r.value.values == m.values - {m.keys[0]}
  {
    if m.keys == [] then None
    else
      var r := OrderedMap(m.keys[1..], m.values - {m.keys[0]});
      assert forall k :: k in r.keys ==> k in m.keys && k != m.keys[0];
      Some(r)
  }

  /** Resolving a code that is not cached: EUR (in any letter case) from the
      bundled file only, any other code from the URL the table gives for its
      upper-case form; every failure is None. */
  function Resolve(code: string, urls: map<string, string>, source: FlagSource): (r: Option<Bitmap>)
    ensures r.Some? && Upper(code) == "EUR" ==> source.localFlagExists && r == source.localFlag
    ensures r.Some? && Upper(code) != "EUR" ==>
              Upper(code) in urls && urls[Upper(code)] != "" &&
              source.http(urls[Upper(code)]) == Response(200, r)
  {
    if Upper(code) == "EUR" then
      if source.localFlagExists then source.localFlag else None
    else if Upper(code) in urls && urls[Upper(code)] != "" then
      match source.http(urls[Upper(code)])
      case TransportError => None
      case Response(status, image) => if status == 200 then image else None
    else
      None
  }

  /** The cache after a lookup, and the image the lookup returns. */
  datatype Lookup = Lookup(cache: OrderedMap, image: Option<Bitmap>)

  /** fetch_flag_image: a hit returns the cached image; a miss resolves and
      stores a success under the code as given. */
  function FetchStep(m: OrderedMap, code: string, urls: map<string, string>, source: FlagSource): Lookup
    requires WellFormed(m)
  {
    if code in m.values then Lookup(m, Some(m.values[code]))
    else
      match Resolve(code, urls, source)
      case None => Lookup(m, None)
      case Some(image) => Lookup(Put(m, code, image), Some(image))
  }

  /** _add_to_cache: a full cache first drops its oldest entry, then the code
      is stored; None is the KeyError of popping an empty dictionary. */
  function AddBounded(m: OrderedMap, code: string, image: Bitmap, cacheSize: int): (r: Option<OrderedMap>)
    requires WellFormed(m)
    ensures r.None? <==> Size(m) >= cacheSize && m.keys == []
    ensures r.Some? ==> WellFormed(r.value) && code in r.value.values && r.value.values[code] == image
    ensures r.Some? && Size(m) < cacheSize ==>
              r.value.values == m.values[code := image] &&
              r.value.keys == (if code in m.values then m.keys else m.keys + [code])
    ensures r.Some? && Size(m) >= cacheSize ==>
              r.value.values == (m.values - {m.keys[0]})[code := image] &&
              r.value.keys == (if code in m.values && code != m.keys[0] then m.keys[1..] else m.keys[1..] + [code])
  {
    if Size(m) >= cacheSize then
      match PopOldest(m)
      case None => None
      case Some(rest) => Some(Put(rest, code, image))
    else
      Some(Put(m, code, image))
  }

  class CountryFlagHandler {
    /** The currency-code-to-URL table read at construction. */
    const currencyFlags: map<string, string>
    const cacheSize: int
    var flagCache: OrderedMap

    /** The flag cache is a well-formed ordered dictionary. */
    ghost predicate Valid()
      reads this
    {
      WellFormed(flagCache)
    }

    constructor (currencyFlags: map<string, string>, cacheSize: int)
      ensures this.currencyFlags == currencyFlags && this.cacheSize == cacheSize
      ensures flagCache == Empty && Valid()
    {
      this.currencyFlags := currencyFlags;
      this.cacheSize := cacheSize;
      flagCache := Empty;
    }

    method FetchFlagImage(code: string, source: FlagSource) returns (image: Option<Bitmap>)
      requires Valid()
      modifies this
      ensures Valid()
      ensures Lookup(flagCache, image) == FetchStep(old(flagCache), code, currencyFlags, source)
    {
      if code in flagCache.values {
        return Some(flagCache.values[code]);
      }
      if Upper(code) == "EUR" {
        if source.localFlagExists {
          var decoded := source.localFlag;
          if decoded.Some? {
            flagCache := Put(flagCache, code, decoded.value);
          }
          return decoded;
        } else {
          return None;
        }
      }
      var flagUrl := if Upper(code) in currencyFlags then currencyFlags[Upper(code)] else "";
      if flagUrl != "" {
        var response := source.http(flagUrl);
        if response.Response? && response.status == 200 {
          if response.image.Some? {
            flagCache := Put(flagCache, code, response.image.value);
          }
          return response.image;
        } else {
          return None;
        }
      }
      return None;
    }

    /** The bounded insert; `ok` is false when popping an empty cache raises. */
    method AddToCache(code: string, image: Bitmap) returns (ok: bool)
      requires Valid()
      modifies this
      ensures Valid()
      ensures ok == AddBounded(old(flagCache), code, image, cacheSize).Some?
      ensures ok ==> flagCache == AddBounded(old(flagCache), code, image, cacheSize).value
      ensures !ok ==> flagCache == old(flagCache)
    {
      if Size(flagCache) >= cacheSize {
        var rest := PopOldest(flagCache);
        if rest.None? {
          return false;
        }
        flagCache := rest.value;
      }
      flagCache := Put(flagCache, code, image);
      return true;
    }
  }

  /** A hit returns the cached image and consults neither the URL table nor
      the outside world. */
  lemma FetchHitResolvesNothing(m: OrderedMap, code: string, urls1: map<string, string>,
                                urls2: map<string, string>, s1: FlagSource, s2: FlagSource)
    requires WellFormed(m) && code in m.values
    ensures FetchStep(m, code, urls1, s1) == FetchStep(m, code, urls2, s2) == Lookup(m, Some(m.values[code]))
  {
  }

  /** Failures are not cached, successes are cached under the code as given
      (not upper-cased), appended last. */
  lemma FetchMissCaching(m: OrderedMap, code: string, urls: map<string, string>, source: FlagSource)
    requires WellFormed(m) && code !in m.values
    ensures FetchStep(m, code, urls, source).image == Resolve(code, urls, source)
    ensures Resolve(code, urls, source).None? ==> FetchStep(m, code, urls, source).cache == m
    ensures Resolve(code, urls, source).Some? ==>
              FetchStep(m, code, urls, source).cache.keys == m.keys + [code] &&
              FetchStep(m, code, urls, source).cache.values == m.values[code := Resolve(code, urls, source).value]
  {
  }

  /** After a successful lookup, the same code is served from the cache
      whatever the table and the outside world say. */
  lemma SecondFetchFromCache(m: OrderedMap, code: string, urls: map<string, string>, source: FlagSource,
                             urls2: map<string, string>, source2: FlagSource)
    requires WellFormed(m)
    requires FetchStep(m, code, urls, source).image.Some?
    ensures var first := FetchStep(m, code, urls, source);
            FetchStep(first.cache, code, urls2, source2) == first
  {
  }

  /** A lookup never evicts and never reorders: the old entries stay a prefix
      with their images, and at most one entry is added. */
  lemma FetchNeverEvicts(m: OrderedMap, code: string, urls: map<string, string>, source: FlagSource)
    requires WellFormed(m)
    ensures var after := FetchStep(m, code, urls, source).cache;
            WellFormed(after) && after.keys[..|m.keys|] == m.keys &&
            |after.keys| <= |m.keys| + 1 &&
            forall k :: k in m.values ==> k in after.values && after.values[k] == m.values[k]
  {
  }

  /** EUR in any letter case resolves from the bundled file alone; the URL
      table and the network play no part. */
  lemma EurIgnoresUrlTable(code: string, urls1: map<string, string>, urls2: map<string, string>,
                           s1: FlagSource, s2: FlagSource)
    requires Upper(code) == "EUR"
    requires s1.localFlagExists == s2.localFlagExists && s1.localFlag == s2.localFlag
    ensures Resolve(code, urls1, s1) == Resolve(code, urls2, s2)
    ensures Resolve(code, urls1, s1) == if s1.localFlagExists then s1.localFlag else None
  {
  }

  /** Any other code resolves only through a non-empty URL listed under its
      upper-case form and a 200 response that decodes. */
  lemma OtherCodesNeedUrl(code: string, urls: map<string, string>, source: FlagSource)
    requires Upper(code) != "EUR"
    ensures Resolve(code, urls, source).Some? <==>
              Upper(code) in urls && urls[Upper(code)] != "" &&
              source.http(urls[Upper(code)]).Response? &&
              source.http(urls[Upper(code)]).status == 200 &&
              source.http(urls[Upper(code)]).image.Some?
  {
  }

  /** With room for at least one entry and a cache within its bound, the
      bounded insert keeps the bound and maps the code to the new image. */
  lemma AddBoundedKeepsBound(m: OrderedMap, code: string, image: Bitmap, cacheSize: int)
    requires WellFormed(m) && 1 <= cacheSize && Size(m) <= cacheSize
    ensures AddBounded(m, code, image, cacheSize).Some?
    ensures var r := AddBounded(m, code, image, cacheSize).value;
            WellFormed(r) && Size(r) <= cacheSize && code in r.values && r.values[code] == image
  {
  }

  /** A full cache loses exactly its oldest entry (unless that entry is the
      code being stored), first in first out. */
  lemma AddBoundedEvictsOldest(m: OrderedMap, code: string, image: Bitmap, cacheSize: int)
    requires WellFormed(m) && 1 <= cacheSize && Size(m) >= cacheSize
    ensures AddBounded(m, code, image, cacheSize).Some?
    ensures var r := AddBounded(m, code, image, cacheSize).value;
            (m.keys[0] != code ==> m.keys[0] !in r.values) &&
            forall k :: k in m.values && k != m.keys[0] && k != code ==> k in r.values && r.values[k] == m.values[k]
  {
  }

  /** A cache size of zero or less makes the bounded insert into an empty
      cache raise. */
  lemma AddBoundedRaisesWhenSizeNotPositive(code: string, image: Bitmap, cacheSize: int)
    requires cacheSize <= 0
    ensures AddBounded(Empty, code, image, cacheSize).None?
  {
  }

  /** The lookup path ignores the bound: with a cache size of 1, two lookups
      leave two entries. */
  lemma FetchExceedsCacheSize(a: string, b: string, urls: map<string, string>, source: FlagSource)
    requires a != b
    requires Resolve(a, urls, source).Some? && Resolve(b, urls, source).Some?
    ensures var first := FetchStep(Empty, a, urls, source).cache;
            Size(FetchStep(first, b, urls, source).cache) == 2
  {
  }
}
