/**
 * The API client (src/index.js) without its network calls: option defaults, the url of
 * an endpoint, the two endpoint buckets and how they are filled, name resolution, the
 * request a lookup plans, how a response is unwrapped, and the image accessors.
 *
 * The two HTTP requests the client makes are parameters here: the catalog request is a
 * function from url to an optional list of descriptors (absent when the request fails),
 * and a lookup's request is a function from the planned request to a response body.
 */
module Api {
  import opened Wrappers
  import opened JsString
  import opened Endpoints

  /** The errors the client raises. */
  datatype Error =
    | UnknownEndpointType  // a custom bucket name other than `get` and `post`
    | CatalogUnavailable   // the catalog request failed or an entry has an unknown verb
    | UnknownEndpoint      // no registered endpoint answers to the name

  /** `Object.entries(options.endpoints)`: bucket names with their descriptors, in `Object.entries` order. */
  type Entries = seq<(string, seq<string>)>

  /** The merged options. The version is an integer; the source formats it with a template literal. */
  datatype Options = Options(version: int, apiUrl: string, ignoreDefaultEndpoints: bool, endpoints: Entries)

  /** The options a caller passes; an absent field keeps its default. */
  datatype UserOptions = UserOptions(
    version: Option<int>,
    apiUrl: Option<string>,
    ignoreDefaultEndpoints: Option<bool>,
    endpoints: Option<Entries>)

  const NoUserOptions: UserOptions := UserOptions(None, None, None, None)

  const DefaultOptions: Options := Options(1, "http://api.samidb.xyz", false, [])

  // ---------------------------------------------------------------------------
  // Options

  /** The defaults overlaid with the fields the caller supplied. */
  function MergeOptions(user: UserOptions): (o: Options)
    ensures o.version == (if user.version.Some? then user.version.value else DefaultOptions.version)
    ensures o.apiUrl == (if user.apiUrl.Some? then user.apiUrl.value else DefaultOptions.apiUrl)
    ensures o.ignoreDefaultEndpoints ==
      (if user.ignoreDefaultEndpoints.Some? then user.ignoreDefaultEndpoints.value else DefaultOptions.ignoreDefaultEndpoints)
    ensures o.endpoints == (if user.endpoints.Some? then user.endpoints.value else DefaultOptions.endpoints)
  {
    Options(
      user.version.GetOr(DefaultOptions.version),
      user.apiUrl.GetOr(DefaultOptions.apiUrl),
      user.ignoreDefaultEndpoints.GetOr(DefaultOptions.ignoreDefaultEndpoints),
      user.endpoints.GetOr(DefaultOptions.endpoints))
  }

  /** Passing no options gives version 1, the public service, the catalog, and no custom endpoints. */
  lemma MergeNothing()
    ensures MergeOptions(NoUserOptions) == Options(1, "http://api.samidb.xyz", false, [])
  {
  }

  /** Supplying one more field changes that field of the merged options and nothing else. */
  lemma MergeOverridesOnlyItsField(user: UserOptions, version: int, apiUrl: string, ignore: bool, endpoints: Entries)
    ensures MergeOptions(user.(version := Some(version))) == MergeOptions(user).(version := version)
    ensures MergeOptions(user.(apiUrl := Some(apiUrl))) == MergeOptions(user).(apiUrl := apiUrl)
    ensures MergeOptions(user.(ignoreDefaultEndpoints := Some(ignore)))
         == MergeOptions(user).(ignoreDefaultEndpoints := ignore)
    ensures MergeOptions(user.(endpoints := Some(endpoints))) == MergeOptions(user).(endpoints := endpoints)
  {
  }

  // ---------------------------------------------------------------------------
  // Urls

  /** `getURL(name)`: the api url, `/v`, the version in decimal, `/` and the name. */
  function GetURL(o: Options, name: string): (u: string)
    ensures |u| > |o.apiUrl| + |name| + 2
    ensures u[..|o.apiUrl|] == o.apiUrl
    ensures u[|o.apiUrl|..|o.apiUrl| + 2] == "/v"
    ensures u[|u| - |name| - 1..] == "/" + name
  {
    o.apiUrl + "/v" + IntToString(o.version) + "/" + name
  }

  /** Version 2 of `http://x` puts `foo` at `http://x/v2/foo`. */
  lemma GetURLExample()
    ensures GetURL(Options(2, "http://x", false, []), "foo") == "http://x/v2/foo"
  {
    assert IntToString(2) == "2";
  }

  /** The text after `apiUrl/v` in a url determines the version and the name. */
  lemma VersionedTail(v1: int, n1: string, v2: int, n2: string)
    requires IntToString(v1) + "/" + n1 == IntToString(v2) + "/" + n2
    ensures v1 == v2 && n1 == n2
  {
    var s1, s2 := IntToString(v1), IntToString(v2);
    assert '/' !in s1 && '/' !in s2;
    SplitAfterPrefix(s1, "/" + n1, '/');
    SplitAfterPrefix(s2, "/" + n2, '/');
    assert Split("/" + n1, '/')[0] == [];
    assert Split("/" + n2, '/')[0] == [];
    assert s1 + [] == s1 && s2 + [] == s2;
    assert s1 + "/" + n1 == s1 + ("/" + n1);
    assert s2 + "/" + n2 == s2 + ("/" + n2);
    assert Split(s1 + ("/" + n1), '/')[0] == s1;
    assert Split(s2 + ("/" + n2), '/')[0] == s2;
    assert s1 == s2;
    IntToStringRoundTrip(v1);
    IntToStringRoundTrip(v2);
    assert n1 == (s1 + "/" + n1)[|s1| + 1..];
    assert n2 == (s2 + "/" + n2)[|s2| + 1..];
  }

  /** Under one api url, different versions or different names give different urls. */
  lemma GetURLInjective(o1: Options, n1: string, o2: Options, n2: string)
    requires o1.apiUrl == o2.apiUrl
    requires GetURL(o1, n1) == GetURL(o2, n2)
    ensures o1.version == o2.version && n1 == n2
  {
    var a := o1.apiUrl + "/v";
    var t1 := IntToString(o1.version) + "/" + n1;
    var t2 := IntToString(o2.version) + "/" + n2;
    assert GetURL(o1, n1) == a + t1;
    assert GetURL(o2, n2) == a + t2;
    assert t1 == (a + t1)[|a|..];
    assert t2 == (a + t2)[|a|..];
    VersionedTail(o1.version, n1, o2.version, n2);
  }

  /** The request target of a lookup: the url of the name, then `/` and the subtype when one is given. */
  function Target(o: Options, name: string, subtype: Option<string>): (t: string)
    ensures |GetURL(o, name)| <= |t| && t[..|GetURL(o, name)|] == GetURL(o, name)
    ensures subtype.None? <==> |t| == |GetURL(o, name)|
    ensures subtype.Some? ==> t[|GetURL(o, name)|..] == "/" + subtype.value
  {
    GetURL(o, name) + (if subtype.Some? then "/" + subtype.value else "")
  }

  /** Different subtypes of one name are requested at different urls, and differ from no subtype. */
  lemma TargetSeparatesSubtypes(o: Options, name: string, s1: Option<string>, s2: Option<string>)
    requires s1 != s2
    ensures Target(o, name, s1) != Target(o, name, s2)
  {
    var u := GetURL(o, name);
    var t1, t2 := Target(o, name, s1), Target(o, name, s2);
    if s1.Some? && s2.Some? {
      assert t1[|u| + 1..] == s1.value;
      assert t2[|u| + 1..] == s2.value;
    } else if s1.None? && s2.Some? {
      assert |t1| < |t2|;
    } else if s1.Some? && s2.None? {
      assert |t1| > |t2|;
    }
  }

  // ---------------------------------------------------------------------------
  // Name resolution

  /** The endpoint's url is `/name` or `/v<version>/name`. */
  predicate Matches(e: Endpoint, version: int, name: string)
    ensures Matches(e, version, name) ==>
      |e.url| > |name| && e.url[0] == '/' && e.url[|e.url| - |name| - 1..] == "/" + name
  {
    e.url == "/" + name || e.url == "/v" + IntToString(version) + "/" + name
  }

  /** Position `i` holds the first endpoint of `es` that answers to the name. */
  predicate IsFirstMatch(es: seq<Endpoint>, version: int, name: string, i: int) {
    && 0 <= i < |es|
    && Matches(es[i], version, name)
    && forall j | 0 <= j < i :: !Matches(es[j], version, name)
  }

  /** `find`: the position of the first endpoint that answers to the name, if any. */
  function FindFirst(es: seq<Endpoint>, version: int, name: string): (r: Option<nat>)
    ensures r.Some? ==> IsFirstMatch(es, version, name, r.value)
    ensures r.None? ==> forall j | 0 <= j < |es| :: !Matches(es[j], version, name)
  {
    if es == [] then None
    else if Matches(es[0], version, name) then Some(0)
    else
      match FindFirst(es[1..], version, name)
      case None => NoMatchShift(es, version, name); None
      case Some(k) => FirstMatchShift(es, version, name, k); Some(k + 1)
  }

  /** No answer after a head that does not answer is no answer at all. */
  lemma NoMatchShift(es: seq<Endpoint>, version: int, name: string)
    requires es != [] && !Matches(es[0], version, name)
    requires forall j | 0 <= j < |es| - 1 :: !Matches(es[1..][j], version, name)
    ensures forall j | 0 <= j < |es| :: !Matches(es[j], version, name)
  {
    forall j | 1 <= j < |es| ensures !Matches(es[j], version, name) {
      assert es[j] == es[1..][j - 1];
    }
  }

  /** The first answer after a head that does not answer is the first answer of the whole. */
  lemma FirstMatchShift(es: seq<Endpoint>, version: int, name: string, k: nat)
    requires es != [] && !Matches(es[0], version, name)
    requires IsFirstMatch(es[1..], version, name, k)
    ensures IsFirstMatch(es, version, name, k + 1)
  {
    forall j | 1 <= j < k + 1 ensures !Matches(es[j], version, name) {
      assert es[j] == es[1..][j - 1];
    }
    assert es[k + 1] == es[1..][k];
  }

  /** The endpoint a name resolves to in `es`. */
  function Resolve(es: seq<Endpoint>, version: int, name: string): (r: Option<Endpoint>)
    ensures r.Some? <==> exists i | 0 <= i < |es| :: Matches(es[i], version, name)
    ensures r.Some? ==> exists i :: IsFirstMatch(es, version, name, i) && r.value == es[i]
  {
    match FindFirst(es, version, name)
    case None => None
    case Some(k) => Some(es[k])
  }

  /**
   * The registry is searched `get` bucket first: a name found among the first endpoints
   * resolves there whatever follows, and otherwise resolves as among the rest alone.
   */
  lemma {:induction false} ResolveConcat(a: seq<Endpoint>, b: seq<Endpoint>, version: int, name: string)
    ensures Resolve(a, version, name).Some? ==> Resolve(a + b, version, name) == Resolve(a, version, name)
    ensures Resolve(a, version, name).None? ==> Resolve(a + b, version, name) == Resolve(b, version, name)
  {
    var ab := a + b;
    match FindFirst(a, version, name)
    case Some(k) =>
      assert IsFirstMatch(ab, version, name, k);
      FirstMatchUnique(ab, version, name, k, FindFirst(ab, version, name).value);
    case None =>
      match FindFirst(b, version, name)
      case Some(k) =>
        assert IsFirstMatch(ab, version, name, |a| + k) by {
          forall j | 0 <= j < |a| + k ensures !Matches(ab[j], version, name) {
            if j >= |a| {
              assert ab[j] == b[j - |a|];
            }
          }
        }
        FirstMatchUnique(ab, version, name, |a| + k, FindFirst(ab, version, name).value);
      case None =>
        assert forall j | 0 <= j < |ab| :: ab[j] == (if j < |a| then a[j] else b[j - |a|]);
  }

  lemma FirstMatchUnique(es: seq<Endpoint>, version: int, name: string, i: int, j: int)
    requires IsFirstMatch(es, version, name, i) && IsFirstMatch(es, version, name, j)
    ensures i == j
  {
  }

  /** Two endpoint lists with the same verbs and urls, position by position. */
  predicate SameRoutes(a: seq<Endpoint>, b: seq<Endpoint>) {
    |a| == |b| && forall i | 0 <= i < |a| :: a[i].verb == b[i].verb && a[i].url == b[i].url
  }

  // ---------------------------------------------------------------------------
  // Requests and responses

  /** An HTTP request: the endpoint's verb, which names the HTTP method, and the target url. */
  datatype Request = Request(verb: string, target: string)

  /**
   * The request a lookup makes: the verb of the first endpoint that answers to the name,
   * at the name's url with `/subtype` appended when a subtype is given; `UnknownEndpoint`
   * when no endpoint answers, and then no request at all.
   */
  function Plan(o: Options, es: seq<Endpoint>, name: string, subtype: Option<string>): (r: Result<Request, Error>)
    ensures r.Failure? <==> forall j | 0 <= j < |es| :: !Matches(es[j], o.version, name)
    ensures r.Failure? ==> r.error == UnknownEndpoint
    ensures r.Success? ==> exists i :: IsFirstMatch(es, o.version, name, i) && r.value.verb == es[i].verb
    ensures r.Success? ==> r.value.target == Target(o, name, subtype)
  {
    match Resolve(es, o.version, name)
    case None => Failure(UnknownEndpoint)
    case Some(e) => Success(Request(e.verb, Target(o, name, subtype)))
  }

  /** The planned request depends on the endpoints' verbs and urls only: their subtypes are never read. */
  lemma {:induction false} PlanIgnoresSubtypes(o: Options, a: seq<Endpoint>, b: seq<Endpoint>, name: string, subtype: Option<string>)
    requires SameRoutes(a, b)
    ensures Plan(o, a, name, subtype) == Plan(o, b, name, subtype)
  {
    FindFirstSameRoutes(a, b, o.version, name);
  }

  lemma {:induction false} FindFirstSameRoutes(a: seq<Endpoint>, b: seq<Endpoint>, version: int, name: string)
    requires SameRoutes(a, b)
    ensures FindFirst(a, version, name) == FindFirst(b, version, name)
    ensures FindFirst(a, version, name).Some? ==> a[FindFirst(a, version, name).value].verb == b[FindFirst(b, version, name).value].verb
    decreases |a|
  {
    if a != [] {
      FindFirstSameRoutes(a[1..], b[1..], version, name);
    }
  }

  /** A response body: its `url` field when it has one that is a string, and its other fields. */
  datatype Body = Body(url: Option<string>, fields: map<string, string>)

  /** What a lookup yields: the body's url, or the whole body. */
  datatype Reply = Link(url: string) | Whole(body: Body)

  /** `data?.url || data`: the url when present and non-empty, the whole body otherwise. */
  function Unwrap(b: Body): (r: Reply)
    ensures r.Link? <==> b.url.Some? && b.url.value != ""
    ensures r.Link? ==> r.url == b.url.value
    ensures r.Whole? ==> r.body == b
  {
    if b.url.Some? && b.url.value != "" then Link(b.url.value) else Whole(b)
  }

  // ---------------------------------------------------------------------------
  // Filling the buckets

  predicate IsBucket(name: string) {
    name == "get" || name == "post"
  }

  /** `descriptors.map(d => new Endpoint(d))`. */
  function ParseAll(ds: seq<string>): (es: seq<Endpoint>)
    ensures |es| == |ds|
  {
    seq(|ds|, i requires 0 <= i < |ds| => Parse(ds[i]))
  }

  /** Parsing two lists of descriptors one after the other gives the two lists of endpoints, in order. */
  lemma ParseAllConcat(a: seq<string>, b: seq<string>)
    ensures ParseAll(a + b) == ParseAll(a) + ParseAll(b)
  {
    var l, r := ParseAll(a + b), ParseAll(a) + ParseAll(b);
    forall k | 0 <= k < |l| ensures l[k] == r[k] {
      if k < |a| {
        assert (a + b)[k] == a[k];
      } else {
        assert (a + b)[k] == b[k - |a|];
      }
    }
  }

  lemma ParseAllSingle(d: string)
    ensures ParseAll([d]) == [Parse(d)]
  {
  }

  /** How many leading custom entries name a known bucket: the position of the first unknown one, or all. */
  function KnownPrefix(entries: Entries): (n: nat)
    ensures n <= |entries|
    ensures forall j | 0 <= j < n :: IsBucket(entries[j].0)
    ensures n < |entries| ==> !IsBucket(entries[n].0)
  {
    if entries == [] then 0
    else if IsBucket(entries[0].0) then 1 + KnownPrefix(entries[1..])
    else 0
  }

  /** The descriptors custom entries register in a bucket: those of each entry naming it, in order. */
  function Registered(entries: Entries, bucket: string): seq<string> {
    if entries == [] then []
    else
      var last := entries[|entries| - 1];
      Registered(entries[..|entries| - 1], bucket) + (if last.0 == bucket then last.1 else [])
  }

  /** Registering two lists of entries one after the other adds what each adds, in that order. */
  lemma {:induction false} RegisteredConcat(a: Entries, b: Entries, bucket: string)
    ensures Registered(a + b, bucket) == Registered(a, bucket) + Registered(b, bucket)
    decreases |b|
  {
    if b == [] {
      assert a + b == a;
    } else {
      var ab, b', last := a + b, b[..|b| - 1], b[|b| - 1];
      assert ab[..|ab| - 1] == a + b' && ab[|ab| - 1] == last;
      RegisteredConcat(a, b', bucket);
      var added := if last.0 == bucket then last.1 else [];
      assert Registered(ab, bucket) == Registered(a + b', bucket) + added;
      assert Registered(b, bucket) == Registered(b', bucket) + added;
    }
  }

  /** An entry registers its descriptors, in order, in the bucket it names and nothing in the other. */
  lemma RegisteredSingle(name: string, ds: seq<string>, bucket: string)
    ensures Registered([(name, ds)], bucket) == if name == bucket then ds else []
  {
    assert [(name, ds)][..0] == [];
  }

  /** One more custom entry appends its parsed descriptors to the bucket it names and leaves the other alone. */
  lemma RegisteredStep(g: seq<Endpoint>, entries: Entries, i: nat, bucket: string)
    requires i < |entries|
    ensures entries[i].0 == bucket ==>
      g + ParseAll(Registered(entries[..i + 1], bucket))
        == (g + ParseAll(Registered(entries[..i], bucket))) + ParseAll(entries[i].1)
    ensures entries[i].0 != bucket ==>
      g + ParseAll(Registered(entries[..i + 1], bucket)) == g + ParseAll(Registered(entries[..i], bucket))
  {
    var before := Registered(entries[..i], bucket);
    assert entries[..i + 1][..i] == entries[..i];
    if entries[i].0 == bucket {
      ParseAllConcat(before, entries[i].1);
    } else {
      assert before + [] == before;
    }
  }

  /** How many leading catalog descriptors have a known verb. */
  function CatalogPrefix(data: seq<string>): (n: nat)
    ensures n <= |data|
    ensures forall j | 0 <= j < n :: IsBucket(TypeOf(data[j]))
    ensures n < |data| ==> !IsBucket(TypeOf(data[n]))
  {
    if data == [] then 0
    else if IsBucket(TypeOf(data[0])) then 1 + CatalogPrefix(data[1..])
    else 0
  }

  /** The catalog descriptors routed to a bucket: those whose verb names it, in order. */
  function Routed(data: seq<string>, bucket: string): seq<string> {
    if data == [] then []
    else
      var last := data[|data| - 1];
      Routed(data[..|data| - 1], bucket) + (if TypeOf(last) == bucket then [last] else [])
  }

  /** One more catalog descriptor is appended, parsed, to the bucket its verb names; the other is left alone. */
  lemma RoutedStep(g: seq<Endpoint>, data: seq<string>, i: nat, bucket: string)
    requires i < |data|
    ensures TypeOf(data[i]) == bucket ==>
      g + ParseAll(Routed(data[..i + 1], bucket)) == (g + ParseAll(Routed(data[..i], bucket))) + [Parse(data[i])]
    ensures TypeOf(data[i]) != bucket ==>
      g + ParseAll(Routed(data[..i + 1], bucket)) == g + ParseAll(Routed(data[..i], bucket))
  {
    var before := Routed(data[..i], bucket);
    assert data[..i + 1][..i] == data[..i];
    if TypeOf(data[i]) == bucket {
      ParseAllConcat(before, [data[i]]);
      ParseAllSingle(data[i]);
    } else {
      assert before + [] == before;
    }
  }

  /** One catalog descriptor is routed, parsed, to the bucket its verb names and to no other. */
  lemma RoutedOne(d: string, bucket: string)
    ensures ParseAll(Routed([d], bucket)) == if TypeOf(d) == bucket then [Parse(d)] else []
  {
    assert [d][..0] == [];
    ParseAllSingle(d);
  }

  lemma AppendAssoc<T>(a: seq<T>, b: seq<T>, c: seq<T>)
    ensures (a + b) + c == a + (b + c)
  {
  }

  /** One loop step of catalog ingestion: routing `data[i]` turns the buckets of a prefix into those of the next. */
  lemma IngestStep(g0: seq<Endpoint>, p0: seq<Endpoint>, g: seq<Endpoint>, p: seq<Endpoint>, data: seq<string>, i: nat)
    requires i < |data| && i <= CatalogPrefix(data)
    requires g == g0 + ParseAll(Routed(data[..i], "get"))
    requires p == p0 + ParseAll(Routed(data[..i], "post"))
    ensures IsBucket(TypeOf(data[i])) ==> i + 1 <= CatalogPrefix(data)
    ensures g + ParseAll(Routed([data[i]], "get")) == g0 + ParseAll(Routed(data[..i + 1], "get"))
    ensures p + ParseAll(Routed([data[i]], "post")) == p0 + ParseAll(Routed(data[..i + 1], "post"))
  {
    if IsBucket(TypeOf(data[i])) {
      assert i != CatalogPrefix(data);
    }
    RoutedAppend(data, i, "get");
    RoutedAppend(data, i, "post");
    ParseAllConcat(Routed(data[..i], "get"), Routed([data[i]], "get"));
    ParseAllConcat(Routed(data[..i], "post"), Routed([data[i]], "post"));
    AppendAssoc(g0, ParseAll(Routed(data[..i], "get")), ParseAll(Routed([data[i]], "get")));
    AppendAssoc(p0, ParseAll(Routed(data[..i], "post")), ParseAll(Routed([data[i]], "post")));
  }

  /** The descriptors of a longer prefix routed to a bucket: those of the shorter prefix, then the next one's. */
  lemma RoutedAppend(data: seq<string>, i: nat, bucket: string)
    requires i < |data|
    ensures Routed(data[..i + 1], bucket) == Routed(data[..i], bucket) + Routed([data[i]], bucket)
  {
    assert data[..i + 1][..i] == data[..i];
    assert [data[i]][..0] == [];
  }

  /** Every descriptor the catalog routes to a bucket has that bucket's name as its verb. */
  lemma {:induction false} RoutedVerbs(data: seq<string>, bucket: string)
    ensures forall i | 0 <= i < |Routed(data, bucket)| :: TypeOf(Routed(data, bucket)[i]) == bucket
    decreases |data|
  {
    if data != [] {
      RoutedVerbs(data[..|data| - 1], bucket);
    }
  }

  /** Every endpoint the catalog adds to a bucket has that bucket's name as its verb. */
  lemma RoutedEndpointVerbs(data: seq<string>, bucket: string)
    ensures forall e | e in ParseAll(Routed(data, bucket)) :: e.verb == bucket
  {
    RoutedVerbs(data, bucket);
  }

  /**
   * Catalog descriptors with known verbs each land in exactly one bucket: the two buckets
   * together hold every descriptor, as often as it occurs, and nothing else.
   */
  lemma {:induction false} RoutedPartition(data: seq<string>)
    requires forall j | 0 <= j < |data| :: IsBucket(TypeOf(data[j]))
    ensures multiset(Routed(data, "get")) + multiset(Routed(data, "post")) == multiset(data)
    ensures |Routed(data, "get")| + |Routed(data, "post")| == |data|
    decreases |data|
  {
    if data != [] {
      var init, last := data[..|data| - 1], data[|data| - 1];
      RoutedPartition(init);
      assert data == init + [last];
      PartitionStep(Routed(init, "get"), Routed(init, "post"), init, last);
    }
  }

  /** Routing one more descriptor adds it to exactly one of the two buckets. */
  lemma PartitionStep(g: seq<string>, p: seq<string>, init: seq<string>, last: string)
    requires IsBucket(TypeOf(last))
    requires multiset(g) + multiset(p) == multiset(init) && |g| + |p| == |init|
    ensures var g', p' := g + (if TypeOf(last) == "get" then [last] else []), p + (if TypeOf(last) == "post" then [last] else []);
      multiset(g') + multiset(p') == multiset(init + [last]) && |g'| + |p'| == |init + [last]|
  {
  }

  /** The image accessors, each a lookup of `img` with its own name as the subtype. */
  const ImageAccessors: seq<string> := [
    "blush", "bonk", "boop", "cry", "cuddle", "grouphug", "hug", "kiss",
    "lick", "nom", "pat", "slap", "smile", "nuggies", "corn"
  ]

  // ---------------------------------------------------------------------------
  // The client

  class SamiDBApi {
    const options: Options
    /** `endpoints.get` and `endpoints.post`, searched in that order. */
    var get: seq<Endpoint>
    var post: seq<Endpoint>

    /** The merged options and two empty buckets; the buckets are filled by the methods below. */
    constructor(user: UserOptions)
      ensures options == MergeOptions(user)
      ensures get == [] && post == []
    {
      options := MergeOptions(user);
      get := [];
      post := [];
    }

    /** `Object.values(this.endpoints).flat()`. */
    function Endpoints(): (es: seq<Endpoint>)
      reads this
      ensures es == get + post
    {
      get + post
    }

    /**
     * `#setCustomEndpoints`: each custom entry, in order, appends its parsed descriptors
     * to the bucket it names. At the first entry naming another bucket it raises
     * `UnknownEndpointType`; the entries before it stay appended.
     */
    method SetCustomEndpoints() returns (r: Outcome<Error>)
      modifies this
      ensures var entries := options.endpoints;
        var n := KnownPrefix(entries);
        && get == old(get) + ParseAll(Registered(entries[..n], "get"))
        && post == old(post) + ParseAll(Registered(entries[..n], "post"))
        && r == (if n < |entries| then Fail(UnknownEndpointType) else Pass)
    {
      var entries := options.endpoints;
      var i := 0;
      while i < |entries| && IsBucket(entries[i].0)
        invariant 0 <= i <= |entries|
        invariant i <= KnownPrefix(entries)
        invariant get == old(get) + ParseAll(Registered(entries[..i], "get"))
        invariant post == old(post) + ParseAll(Registered(entries[..i], "post"))
      {
        RegisteredStep(old(get), entries, i, "get");
        RegisteredStep(old(post), entries, i, "post");
        var (name, ds) := entries[i];
        if name == "get" {
          get := get + ParseAll(ds);
        } else {
          post := post + ParseAll(ds);
        }
        i := i + 1;
      }
      r := if i < |entries| then Fail(UnknownEndpointType) else Pass;
    }

    /** The `forEach` callback of `#getDefaultEndpoints`: a descriptor with a known verb is parsed and appended to that bucket. */
    method Route(d: string)
      requires IsBucket(TypeOf(d))
      modifies this
      ensures get == old(get) + ParseAll(Routed([d], "get"))
      ensures post == old(post) + ParseAll(Routed([d], "post"))
    {
      RoutedOne(d, "get");
      RoutedOne(d, "post");
      if TypeOf(d) == "get" {
        get := get + [Parse(d)];
      } else {
        post := post + [Parse(d)];
      }
    }

    /**
     * The list part of `#getDefaultEndpoints`: each catalog descriptor, in order, is
     * appended to the bucket its verb names. At the first descriptor with another verb
     * it raises `CatalogUnavailable`; the descriptors before it stay appended.
     */
    method IngestCatalog(data: seq<string>) returns (r: Outcome<Error>)
      modifies this
      ensures var n := CatalogPrefix(data);
        && get == old(get) + ParseAll(Routed(data[..n], "get"))
        && post == old(post) + ParseAll(Routed(data[..n], "post"))
        && r == (if n < |data| then Fail(CatalogUnavailable) else Pass)
    {
      var i := 0;
      while i < |data| && IsBucket(TypeOf(data[i]))
        invariant 0 <= i <= |data|
        invariant i <= CatalogPrefix(data)
        invariant get == old(get) + ParseAll(Routed(data[..i], "get"))
        invariant post == old(post) + ParseAll(Routed(data[..i], "post"))
      {
        IngestStep(old(get), old(post), get, post, data, i);
        Route(data[i]);
        i := i + 1;
      }
      r := if i < |data| then Fail(CatalogUnavailable) else Pass;
    }

    /**
     * `get(name, subtype)`: plan the request, make it with `respond`, and unwrap the body.
     * Raises `UnknownEndpoint`, without a request, when no endpoint answers to the name.
     */
    function Get(name: string, subtype: Option<string>, respond: Request -> Body): (r: Result<Reply, Error>)
      reads this
      ensures r.Failure? <==> Resolve(get + post, options.version, name).None?
      ensures r.Failure? ==> r.error == UnknownEndpoint
      ensures r.Success? ==>
        r.value == Unwrap(respond(Request(Resolve(get + post, options.version, name).value.verb, Target(options, name, subtype))))
    {
      match Plan(options, Endpoints(), name, subtype)
      case Failure(e) => Failure(e)
      case Success(request) => Success(Unwrap(respond(request)))
    }

    /** The accessor named `accessor` (`blush`, `bonk`, ...): the image of that kind. */
    function Image(accessor: string, respond: Request -> Body): (r: Result<Reply, Error>)
      reads this
      requires accessor in ImageAccessors
      ensures r == Get("img", Some(accessor), respond)
    {
      Get("img", Some(accessor), respond)
    }

    /** `toString()`. */
    function ToString(): (s: string)
      ensures s == "[SamiDBApi]"
    {
      "[SamiDBApi]"
    }
  }

  /**
   * The descriptors a bucket holds once construction is done: those the custom entries
   * register, up to the first unknown bucket name, then those of the catalog response
   * routed to it, up to the first unknown verb.
   */
  function BucketDescriptors(o: Options, catalog: Option<seq<string>>, bucket: string): seq<string> {
    Registered(o.endpoints[..KnownPrefix(o.endpoints)], bucket)
      + (if catalog.Some? then Routed(catalog.value[..CatalogPrefix(catalog.value)], bucket) else [])
  }

  /**
   * Construction: merge the options, register the custom endpoints, then, unless the
   * caller asked to ignore them, fetch the catalog from the `endpoints` url and ingest
   * it. The catalog request is awaited before its entries are added, so the custom
   * endpoints come first in each bucket. `custom` is what the constructor raises;
   * `catalog` is what the catalog step raises.
   */
  method Create(user: UserOptions, fetch: string -> Option<seq<string>>)
    returns (api: SamiDBApi, custom: Outcome<Error>, catalog: Outcome<Error>)
    ensures fresh(api) && api.options == MergeOptions(user)
    ensures var o := MergeOptions(user);
      var fetched := if o.ignoreDefaultEndpoints then None else fetch(GetURL(o, "endpoints"));
      && custom == (if KnownPrefix(o.endpoints) < |o.endpoints| then Fail(UnknownEndpointType) else Pass)
      && api.get == ParseAll(BucketDescriptors(o, fetched, "get"))
      && api.post == ParseAll(BucketDescriptors(o, fetched, "post"))
      && catalog == (if o.ignoreDefaultEndpoints then Pass
                     else if fetched.None? || CatalogPrefix(fetched.value) < |fetched.value| then Fail(CatalogUnavailable)
                     else Pass)
  {
    api := new SamiDBApi(user);
    custom := api.SetCustomEndpoints();
    var o := api.options;
    ghost var getCustom := Registered(o.endpoints[..KnownPrefix(o.endpoints)], "get");
    ghost var postCustom := Registered(o.endpoints[..KnownPrefix(o.endpoints)], "post");
    assert api.get == ParseAll(getCustom) && api.post == ParseAll(postCustom);
    if o.ignoreDefaultEndpoints {
      catalog := Pass;
      assert BucketDescriptors(o, None, "get") == getCustom + [] == getCustom;
      assert BucketDescriptors(o, None, "post") == postCustom + [] == postCustom;
    } else {
      var fetched := fetch(GetURL(o, "endpoints"));
      if fetched.None? {
        catalog := Fail(CatalogUnavailable);
        assert BucketDescriptors(o, None, "get") == getCustom + [] == getCustom;
        assert BucketDescriptors(o, None, "post") == postCustom + [] == postCustom;
      } else {
        var data := fetched.value;
        ghost var m := CatalogPrefix(data);
        catalog := api.IngestCatalog(data);
        ParseAllConcat(getCustom, Routed(data[..m], "get"));
        ParseAllConcat(postCustom, Routed(data[..m], "post"));
        assert api.get == ParseAll(BucketDescriptors(o, fetched, "get"));
        assert api.post == ParseAll(BucketDescriptors(o, fetched, "post"));
      }
    }
  }

  /** The endpoints the custom entries add to a bucket: those before the first unknown bucket name. */
  function CustomEndpoints(o: Options, bucket: string): seq<Endpoint> {
    ParseAll(Registered(o.endpoints[..KnownPrefix(o.endpoints)], bucket))
  }

  /** The endpoints the catalog adds to a bucket: those before the first unknown verb, or none. */
  function CatalogEndpoints(catalog: Option<seq<string>>, bucket: string): seq<Endpoint> {
    if catalog.Some? then ParseAll(Routed(catalog.value[..CatalogPrefix(catalog.value)], bucket)) else []
  }

  /** Each bucket that construction builds holds its custom endpoints, then its catalog endpoints. */
  lemma BucketLayout(o: Options, catalog: Option<seq<string>>, bucket: string)
    ensures ParseAll(BucketDescriptors(o, catalog, bucket)) == CustomEndpoints(o, bucket) + CatalogEndpoints(catalog, bucket)
  {
    var c := Registered(o.endpoints[..KnownPrefix(o.endpoints)], bucket);
    if catalog.Some? {
      ParseAllConcat(c, Routed(catalog.value[..CatalogPrefix(catalog.value)], bucket));
    } else {
      assert BucketDescriptors(o, catalog, bucket) == c + [] == c;
    }
  }

  /**
   * After construction a lookup searches the custom `get` endpoints, the catalog `get`
   * endpoints, the custom `post` endpoints and the catalog `post` endpoints, in that
   * order. So custom `get` endpoints shadow every catalog endpoint, and catalog `get`
   * endpoints shadow every `post` endpoint. A custom `post` endpoint wins only when no
   * `get` endpoint answers, and then it shadows the catalog `post` endpoints.
   */
  lemma SearchOrder(o: Options, catalog: Option<seq<string>>, version: int, name: string)
    ensures var es := ParseAll(BucketDescriptors(o, catalog, "get")) + ParseAll(BucketDescriptors(o, catalog, "post"));
      var cg, kg := CustomEndpoints(o, "get"), CatalogEndpoints(catalog, "get");
      var cp, kp := CustomEndpoints(o, "post"), CatalogEndpoints(catalog, "post");
      && (Resolve(cg, version, name).Some? ==> Resolve(es, version, name) == Resolve(cg, version, name))
      && (Resolve(cg, version, name).None? && Resolve(kg, version, name).Some? ==>
            Resolve(es, version, name) == Resolve(kg, version, name))
      && (Resolve(cg + kg, version, name).None? && Resolve(cp, version, name).Some? ==>
            Resolve(es, version, name) == Resolve(cp, version, name))
      && (Resolve(cg + kg + cp, version, name).None? ==> Resolve(es, version, name) == Resolve(kp, version, name))
  {
    BucketLayout(o, catalog, "get");
    BucketLayout(o, catalog, "post");
    var cg, kg := CustomEndpoints(o, "get"), CatalogEndpoints(catalog, "get");
    var cp, kp := CustomEndpoints(o, "post"), CatalogEndpoints(catalog, "post");
    SearchOrderOf(cg, kg, cp, kp, version, name);
  }

  /** Searching four lists one after the other: the first list in which the name is found decides. */
  lemma SearchOrderOf(cg: seq<Endpoint>, kg: seq<Endpoint>, cp: seq<Endpoint>, kp: seq<Endpoint>, version: int, name: string)
    ensures var es := (cg + kg) + (cp + kp);
      && (Resolve(cg, version, name).Some? ==> Resolve(es, version, name) == Resolve(cg, version, name))
      && (Resolve(cg, version, name).None? && Resolve(kg, version, name).Some? ==>
            Resolve(es, version, name) == Resolve(kg, version, name))
      && (Resolve(cg + kg, version, name).None? && Resolve(cp, version, name).Some? ==>
            Resolve(es, version, name) == Resolve(cp, version, name))
      && (Resolve(cg + kg + cp, version, name).None? ==> Resolve(es, version, name) == Resolve(kp, version, name))
  {
    ResolveConcat(cg, kg, version, name);
    ResolveConcat(cp, kp, version, name);
    ResolveConcat(cg + kg, cp + kp, version, name);
    ResolveConcat(cg + kg, cp, version, name);
  }

  /**
   * A custom `post` endpoint does not shadow a catalog `get` endpoint with the same url:
   * the `get` bucket is searched first, and there the catalog endpoint answers.
   */
  lemma CatalogGetShadowsCustomPost()
    ensures var catalogGet, customPost := [Endpoint("get", "/foo", None)], [Endpoint("post", "/foo", None)];
      Resolve([] + catalogGet + (customPost + []), 1, "foo") == Some(Endpoint("get", "/foo", None))
  {
    var catalogGet, customPost := [Endpoint("get", "/foo", None)], [Endpoint("post", "/foo", None)];
    var es := [] + catalogGet + (customPost + []);
    assert es[0] == Endpoint("get", "/foo", None);
    assert es[0].url == "/" + "foo";
    ResolveFirst(es, 1, "foo", 0);
  }

  /** The first endpoint that answers is the one a name resolves to. */
  lemma ResolveFirst(es: seq<Endpoint>, version: int, name: string, i: int)
    requires IsFirstMatch(es, version, name, i)
    ensures Resolve(es, version, name) == Some(es[i])
  {
    var r := Resolve(es, version, name);
    var j :| IsFirstMatch(es, version, name, j) && r.value == es[j];
    FirstMatchUnique(es, version, name, i, j);
  }

  /** Every image accessor requests its own url: no two of them share a target. */
  lemma ImageTargetsDistinct(o: Options, i: int, j: int)
    requires 0 <= i < |ImageAccessors| && 0 <= j < |ImageAccessors| && i != j
    ensures Target(o, "img", Some(ImageAccessors[i])) != Target(o, "img", Some(ImageAccessors[j]))
  {
    assert ImageAccessors[i] != ImageAccessors[j];
    TargetSeparatesSubtypes(o, "img", Some(ImageAccessors[i]), Some(ImageAccessors[j]));
  }

  /**
   * A descriptor written `GET,OPTIONS,HEAD/foo`, without white space after the verb list,
   * keeps that text as its url, so a lookup of `foo` does not find it.
   */
  lemma VerbListWithoutSpaceIsUnknown(version: int)
    ensures Resolve([Parse("GET,OPTIONS,HEAD/foo")], version, "foo").None?
  {
    VerbListWithoutSpaceExample();
    var u := "GET,OPTIONS,HEAD/foo";
    assert u[0] != '/';
  }

  /**
   * A catalog line `VERB,OPTIONS,HEAD<white space>/name` answers to `name`: the verb list
   * and the white space are deleted, and the url `/name` is what a lookup compares.
   */
  lemma PlainCatalogLineAnswers(verb: string, space: string, name: string, version: int)
    requires IsVerbToken(verb) && IsGap(space) && IsPathText("/" + name)
    ensures Resolve([Parse(VerbList(verb) + space + ("/" + name))], version, name) == Some(Endpoint(verb, "/" + name, None))
  {
    ParsePlainCatalogLine(verb, space, "/" + name);
    var es := [Parse(VerbList(verb) + space + ("/" + name))];
    assert Matches(es[0], version, name);
    ResolveFirst(es, version, name, 0);
  }

  /** With white space after the verb list, `GET,OPTIONS,HEAD /foo` answers to the name `foo`. */
  lemma VerbListWithSpaceIsKnown(version: int)
    ensures Resolve([Parse("GET,OPTIONS,HEAD /foo")], version, "foo") == Some(Endpoint("get", "/foo", None))
  {
    PlainFooText();
    PlainCatalogLineAnswers("get", " ", "foo", version);
  }

  lemma PlainFooText()
    ensures "GET,OPTIONS,HEAD /foo" == VerbList("get") + " " + ("/" + "foo")
    ensures IsVerbToken("get") && IsGap(" ") && IsPathText("/" + "foo")
  {
    assert Upper("get") == "GET";
  }
}
