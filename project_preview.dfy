/** The screenshot preview of components/project-preview.tsx: the two
    microlink URLs and the `imgSrc` state that falls back from the first to
    the second. The HEAD check's outcome is an input. */
module ProjectPreview {
  import opened Wrappers
  import opened Text
  import opened Http
  import UriComponent
  import QueryString
  import DeploymentColumns

  const ServiceEndpoint: string := "https://api.microlink.io/"
  const BaseUrl: string := "https://api.microlink.io/?url="
  const Options: string := "&screenshot=true&meta=false&embed=screenshot.url"
  const FallbackSite: string := "https://dumcel.nikhilsaiankilla.blog/"

  /** A screenshot request for `site`: the base, the encoded site, the fixed
      options. */
  function ScreenshotUrl(site: string): string
  {
    BaseUrl + UriComponent.Encode(site) + Options
  }

  /** `mainUrl`: a screenshot of the deployment's own address. */
  function MainUrl(subDomain: string): string
  {
    ScreenshotUrl(DeploymentColumns.DomainUrl(subDomain))
  }

  /** `fallbackUrl`: a screenshot of the product's home page. */
  function FallbackUrl(): string
  {
    ScreenshotUrl(FallbackSite)
  }

  /** The parameters of a screenshot request, in order. */
  function ScreenshotPairs(site: string): seq<(string, string)>
  {
    [("url", UriComponent.Encode(site)), ("screenshot", "true"), ("meta", "false"),
     ("embed", "screenshot.url")]
  }

  /** The fixed options are the last three parameters, written out. */
  lemma OptionsAreParameters()
    ensures Options == "&" + "screenshot=true" + "&" + "meta=false" + "&" + "embed=screenshot.url"
  {
    assert "&" + "screenshot=true" == "&screenshot=true";
    assert "&screenshot=true" + "&" == "&screenshot=true&";
    assert "&screenshot=true&" + "meta=false" == "&screenshot=true&meta=false";
    assert "&screenshot=true&meta=false" + "&" == "&screenshot=true&meta=false&";
    assert "&screenshot=true&meta=false&" + "embed=screenshot.url" == Options;
  }

  /** The base is the endpoint, `?` and the start of the `url` parameter. */
  lemma BaseIsEndpointQuery()
    ensures BaseUrl == ServiceEndpoint + "?" + "url="
  {
    assert ServiceEndpoint + "?" == "https://api.microlink.io/?";
  }

  /** The three fixed pairs written out. */
  lemma FixedPairs()
    ensures QueryString.Pair(("screenshot", "true")) == "screenshot=true"
    ensures QueryString.Pair(("meta", "false")) == "meta=false"
    ensures QueryString.Pair(("embed", "screenshot.url")) == "embed=screenshot.url"
  {
    assert "screenshot" + "=" == "screenshot=";
    assert "meta" + "=" == "meta=";
    assert "embed" + "=" == "embed=";
  }

  /** The `url` pair written out. */
  lemma UrlPair(e: string)
    ensures QueryString.Pair(("url", e)) == "url=" + e
  {
    assert "url" + "=" == "url=";
  }

  lemma RegroupQuery(u: string, e: string, s1: string, s2: string, s3: string)
    ensures u + e + "&" + (s1 + "&" + (s2 + "&" + s3)) == u + e + ("&" + s1 + "&" + s2 + "&" + s3)
  {
  }

  lemma RegroupUrl(p: string, q: string, r: string, e: string, o: string)
    ensures p + q + r + e + o == p + q + (r + e + o)
  {
  }

  /** The query of a screenshot request for `site`. */
  lemma ScreenshotQuery(site: string)
    ensures QueryString.Build(ScreenshotPairs(site)) == "url=" + UriComponent.Encode(site) + Options
  {
    var e := UriComponent.Encode(site);
    QueryString.BuildFour(("url", e), ("screenshot", "true"), ("meta", "false"), ("embed", "screenshot.url"));
    UrlPair(e);
    FixedPairs();
    OptionsAreParameters();
    RegroupQuery("url=", e, "screenshot=true", "meta=false", "embed=screenshot.url");
  }

  /** A screenshot URL is the service endpoint followed by a query of four
      parameters. */
  lemma ScreenshotUrlShape(site: string)
    ensures ScreenshotUrl(site) == ServiceEndpoint + "?" + QueryString.Build(ScreenshotPairs(site))
  {
    var e := UriComponent.Encode(site);
    ScreenshotQuery(site);
    BaseIsEndpointQuery();
    RegroupUrl(ServiceEndpoint, "?", "url=", e, Options);
  }

  /** Read back, a screenshot URL's query holds exactly its four parameters
      and the `url` parameter decodes to the site: no character of a
      sub-domain can add or change a parameter. */
  lemma ScreenshotUrlQuery(site: string)
    ensures var pairs := ScreenshotPairs(site);
      && ScreenshotUrl(site) == ServiceEndpoint + "?" + QueryString.Build(pairs)
      && QueryString.Parse(QueryString.Build(pairs)) == pairs
      && UriComponent.Decode(pairs[0].1) == Some(site)
  {
    var e := UriComponent.Encode(site);
    var pairs := ScreenshotPairs(site);
    ScreenshotUrlShape(site);
    assert '&' !in e by {
      forall k | 0 <= k < |e| ensures e[k] != '&' { assert UriComponent.IsEncodedChar(e[k]); }
    }
    assert forall i :: 0 <= i < |pairs| ==> QueryString.Writable(pairs[i]);
    QueryString.ParseBuild(pairs);
    UriComponent.DecodeEncode(site);
  }

  /** Distinct sites give distinct screenshot URLs. */
  lemma ScreenshotUrlInjective(a: string, b: string)
    requires ScreenshotUrl(a) == ScreenshotUrl(b)
    ensures a == b
  {
    FramedInjective(BaseUrl, UriComponent.Encode(a), UriComponent.Encode(b), Options);
    UriComponent.EncodeInjective(a, b);
  }

  /** No deployment address is the fallback site. */
  lemma DomainIsNotFallbackSite(subDomain: string)
    ensures DeploymentColumns.DomainUrl(subDomain) != FallbackSite
  {
    var d := DeploymentColumns.DomainUrl(subDomain);
    if |subDomain| == 4 {
      assert d[12] == '.' && FallbackSite[12] == 'e';
    } else {
      assert |d| != |FallbackSite|;
    }
  }

  /** So the main URL and the fallback URL always differ, and falling back
      is a visible change. */
  lemma MainIsNotFallback(subDomain: string)
    ensures MainUrl(subDomain) != FallbackUrl()
  {
    DomainIsNotFallbackSite(subDomain);
    if MainUrl(subDomain) == FallbackUrl() {
      ScreenshotUrlInjective(DeploymentColumns.DomainUrl(subDomain), FallbackSite);
    }
  }

  /** The preview of one deployment. `subDomain` is the prop the component
      is created with. */
  class Preview {
    const subDomain: string
    var imgSrc: string

    /** `imgSrc` only ever holds one of the two URLs. */
    predicate Valid()
      reads this
    {
      imgSrc == MainUrl(subDomain) || imgSrc == FallbackUrl()
    }

    constructor (sub: string)
      ensures subDomain == sub && imgSrc == MainUrl(sub) && Valid()
    {
      subDomain := sub;
      imgSrc := MainUrl(sub);
    }

    /** `checkPreview`: a HEAD request that throws or comes back not ok
        switches to the fallback; an ok one leaves the image alone. */
    method CheckPreview(head: Reply<()>)
      requires Valid()
      modifies this
      ensures Valid()
      ensures head.Replied? && head.ok ==> imgSrc == old(imgSrc)
      ensures !(head.Replied? && head.ok) ==> imgSrc == FallbackUrl()
    {
      if !(head.Replied? && head.ok) {
        imgSrc := FallbackUrl();
      }
    }

    /** The image's `onError`: switch to the fallback unless it is already
        shown; calling it twice is the same as once, and it never returns
        to the main URL. */
    method OnError()
      requires Valid()
      modifies this
      ensures Valid() && imgSrc == FallbackUrl()
    {
      if imgSrc != FallbackUrl() {
        imgSrc := FallbackUrl();
      }
    }
  }
}
