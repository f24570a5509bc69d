/** The decisions the HTTP wrapper takes on what the portal sends back: whether a final URL
    means a successful login or a pending teacher evaluation, whether the login page shows a
    captcha and where its image is, and the name/value view and persistence mapping of the
    session cookies. */
module HttpClient {
  import opened Wrappers
  import opened Text

  const PortalBase: string := "https://portal.aiub.edu"
  const StudentPrefix: string := "https://portal.aiub.edu/Student"
  const EvaluationMarker: string := "Student/Tpe/Start"
  const HiddenStyle: string := "display: none"

  /** `CheckIfLoginSuccessful`: the portal redirects a signed-in student under `/Student`. */
  function LoginSuccessful(responseUrl: string): (r: bool)
    ensures r <==> exists i :: OccursAt(responseUrl, StudentPrefix, i)
  {
    ContainsIff(responseUrl, StudentPrefix);
    Contains(responseUrl, StudentPrefix)
  }

  /** `CheckIfEvaluationPending`: the portal sends a student with an unfinished evaluation to
      the evaluation start page. */
  function EvaluationPending(responseUrl: string): (r: bool)
    ensures r <==> exists i :: OccursAt(responseUrl, EvaluationMarker, i)
  {
    ContainsIff(responseUrl, EvaluationMarker);
    Contains(responseUrl, EvaluationMarker)
  }

  /** The attributes of an HTML element, by name. */
  type Attributes = map<string, string>

  /** `GetAttributeValue(name, default)`. */
  function AttributeValue(attributes: Attributes, name: string, default: string): (v: string)
    ensures name in attributes ==> v == attributes[name]
    ensures name !in attributes ==> v == default
  {
    if name in attributes then attributes[name] else default
  }

  /** The `div#captcha` element: its attributes and those of the first `img` inside it. */
  datatype CaptchaDiv = CaptchaDiv(attributes: Attributes, image: Option<Attributes>)

  /** What the wrapper reads from a login response page: the first `div` with id `captcha`
      and the first `input` named `CaptchaId`, each when present. */
  datatype ResponsePage = ResponsePage(captcha: Option<CaptchaDiv>, captchaIdInput: Option<Attributes>)

  /** `CheckForCaptcha`: a captcha div is visible unless its style (empty when absent)
      contains "display: none"; without the div there is no captcha. */
  function CheckForCaptcha(page: ResponsePage): (r: bool)
    ensures page.captcha.None? ==> !r
    ensures page.captcha.Some? ==>
      (r <==> !exists i :: OccursAt(AttributeValue(page.captcha.value.attributes, "style", ""), HiddenStyle, i))
  {
    match page.captcha
    case None => false
    case Some(div) =>
      var style := AttributeValue(div.attributes, "style", "");
      ContainsIff(style, HiddenStyle);
      !Contains(style, HiddenStyle)
  }

  /** A captcha div without a style attribute counts as visible. */
  lemma MissingStyleVisible(page: ResponsePage)
    requires page.captcha.Some? && "style" !in page.captcha.value.attributes
    ensures CheckForCaptcha(page)
  {
    var style := AttributeValue(page.captcha.value.attributes, "style", "");
    assert style == "";
    assert forall i :: !OccursAt(style, HiddenStyle, i);
  }

  /** The captcha image address: a site-relative `src` (one starting with '/') is made
      absolute on the portal host; any other value is kept. */
  function ImageUrl(src: string): (url: string)
    ensures |src| > 0 && src[0] == '/' ==> url == PortalBase + src
    ensures !(|src| > 0 && src[0] == '/') ==> url == src
  {
    if |src| > 0 && src[0] == '/' then PortalBase + src else src
  }

  /** Resolving an address twice changes nothing more: an absolute portal address does not
      start with '/'. */
  lemma ImageUrlIdempotent(src: string)
    ensures ImageUrl(ImageUrl(src)) == ImageUrl(src)
  {
    if |src| > 0 && src[0] == '/' {
      assert ImageUrl(src)[0] == 'h';
    }
  }

  /** The tuple `GetCaptchaDetails` returns. */
  datatype CaptchaDetails = CaptchaDetails(success: bool, captchaImageUrl: string, captchaId: string)

  /** The message of the `NullReferenceException` .NET raises on a member access through null. */
  const NullReference: string := "Object reference not set to an instance of an object."

  /** `GetCaptchaDetails`. The `CaptchaId` input is dereferenced as soon as the captcha div
      is found, before the image is looked at, so a page with the div but without the input
      fails with a null reference whether or not the div holds an image. */
  function GetCaptchaDetails(page: ResponsePage): (r: Result<CaptchaDetails>)
    ensures page.captcha.None? ==> r == Ok(CaptchaDetails(false, "", ""))
    ensures page.captcha.Some? && page.captchaIdInput.None? ==> r == Err(NullReference)
    ensures page.captcha.Some? && page.captchaIdInput.Some? && page.captcha.value.image.None? ==>
      r == Ok(CaptchaDetails(false, "", ""))
    ensures r.Ok? && r.value.success ==>
      page.captcha.Some? && page.captcha.value.image.Some? && page.captchaIdInput.Some? &&
      r.value.captchaImageUrl == ImageUrl(AttributeValue(page.captcha.value.image.value, "src", "")) &&
      r.value.captchaId == AttributeValue(page.captchaIdInput.value, "value", "")
    ensures r.Ok? && !r.value.success ==> r.value == CaptchaDetails(false, "", "")
  {
    match page.captcha
    case None => Ok(CaptchaDetails(false, "", ""))
    case Some(div) =>
      match page.captchaIdInput
      case None => Err(NullReference)
      case Some(input) =>
        var captchaId := AttributeValue(input, "value", "");
        match div.image
        case None => Ok(CaptchaDetails(false, "", ""))
        case Some(img) => Ok(CaptchaDetails(true, ImageUrl(AttributeValue(img, "src", "")), captchaId))
  }

  /** A `System.Net.Cookie`, restricted to the properties the wrapper copies; `expires` is the
      expiry instant as a tick count. */
  datatype Cookie = Cookie(name: string, value: string, domain: string, path: string,
                           expires: int, httpOnly: bool, secure: bool)

  /** The `CookieData` record cookies are persisted as. */
  datatype CookieData = CookieData(name: string, value: string, domain: string, path: string,
                                   expires: int, httpOnly: bool, secure: bool)

  /** The object initializer in `SerializeCookies`: each property copied to its namesake. */
  function ToData(c: Cookie): CookieData {
    CookieData(c.name, c.value, c.domain, c.path, c.expires, c.httpOnly, c.secure)
  }

  /** `new Cookie(Name, Value, Path, Domain)` followed by the `Expires`, `HttpOnly` and
      `Secure` initializers in `DeserializeCookies`. */
  function FromData(d: CookieData): Cookie {
    var c := MakeCookie(d.name, d.value, d.path, d.domain);
    c.(expires := d.expires, httpOnly := d.httpOnly, secure := d.secure)
  }

  /** The four-argument `Cookie` constructor: name, value, path, domain, in that order;
      the other properties start at their defaults. */
  function MakeCookie(name: string, value: string, path: string, domain: string): Cookie {
    Cookie(name, value, domain, path, 0, false, false)
  }

  /** A cookie saved and restored is the same cookie (the constructor's path/domain order
      matches the order the record is read in). */
  lemma CookieRoundTrip(c: Cookie)
    ensures FromData(ToData(c)) == c
  {
  }

  /** A record restored and saved again is the same record. */
  lemma CookieDataRoundTrip(d: CookieData)
    ensures ToData(FromData(d)) == d
  {
  }

  function ToDataAll(cookies: seq<Cookie>): (r: seq<CookieData>)
    ensures |r| == |cookies| && forall i :: 0 <= i < |cookies| ==> r[i] == ToData(cookies[i])
  {
    seq(|cookies|, i requires 0 <= i < |cookies| => ToData(cookies[i]))
  }

  function FromDataAll(list: seq<CookieData>): (r: seq<Cookie>)
    ensures |r| == |list| && forall i :: 0 <= i < |list| ==> r[i] == FromData(list[i])
  {
    seq(|list|, i requires 0 <= i < |list| => FromData(list[i]))
  }

  /** Characters a cookie name may not hold. */
  const NameReserved: set<char> := {' ', '\t', '\r', '\n', '=', ';', ','}

  /** A record the restore loop gets through: `new Cookie` accepts a non-empty name that does
      not start with '$' and holds no reserved character, and a value that is quoted or free of
      ';' and ','; `CookieContainer.Add` then needs a non-empty domain. Any other record makes
      one of them throw. */
  predicate Admitted(d: CookieData) {
    && d.name != [] && d.name[0] != '$'
    && (forall k :: 0 <= k < |d.name| ==> d.name[k] !in NameReserved)
    && ((|d.value| >= 2 && d.value[0] == '"' && d.value[|d.value| - 1] == '"') || (';' !in d.value && ',' !in d.value))
    && d.domain != []
  }

  /** How many records, from the front, are admitted before the first one that is not. */
  function AdmittedPrefix(list: seq<CookieData>): (n: nat)
    ensures n <= |list|
    ensures forall i :: 0 <= i < n ==> Admitted(list[i])
    ensures n < |list| ==> !Admitted(list[n])
  {
    if list == [] || !Admitted(list[0]) then 0
    else 1 + AdmittedPrefix(list[1..])
  }

  /** Saving a whole jar and restoring the list gives the same cookies, in the same order. */
  lemma {:induction false} SaveRestore(cookies: seq<Cookie>)
    ensures FromDataAll(ToDataAll(cookies)) == cookies
  {
    var back := FromDataAll(ToDataAll(cookies));
    forall i | 0 <= i < |cookies|
      ensures back[i] == cookies[i]
    {
      CookieRoundTrip(cookies[i]);
    }
  }

  /** The name → value view of the cookies, folded in order so a later cookie with the same
      name replaces an earlier one. */
  function CookieDict(cookies: seq<Cookie>): map<string, string>
    decreases |cookies|
  {
    if cookies == [] then map[]
    else
      var last := cookies[|cookies| - 1];
      CookieDict(cookies[..|cookies| - 1])[last.name := last.value]
  }

  /** The keys are the cookie names, and each name maps to the value of its last cookie. */
  lemma {:induction false} CookieDictLastWins(cookies: seq<Cookie>, i: nat)
    requires i < |cookies|
    requires forall j :: i < j < |cookies| ==> cookies[j].name != cookies[i].name
    ensures cookies[i].name in CookieDict(cookies)
    ensures CookieDict(cookies)[cookies[i].name] == cookies[i].value
    decreases |cookies|
  {
    if i < |cookies| - 1 {
      CookieDictLastWins(cookies[..|cookies| - 1], i);
    }
  }

  /** Every key of the view is the name of some cookie. */
  lemma {:induction false} CookieDictKeys(cookies: seq<Cookie>)
    ensures forall n :: n in CookieDict(cookies) <==> exists j :: 0 <= j < |cookies| && cookies[j].name == n
    decreases |cookies|
  {
    if cookies != [] {
      var front := cookies[..|cookies| - 1];
      CookieDictKeys(front);
      forall n ensures n in CookieDict(cookies) <==> exists j :: 0 <= j < |cookies| && cookies[j].name == n {
        if n in CookieDict(front) {
          var j :| 0 <= j < |front| && front[j].name == n;
          assert cookies[j].name == n;
        }
        if exists j :: 0 <= j < |cookies| && cookies[j].name == n {
          var j :| 0 <= j < |cookies| && cookies[j].name == n;
          if j < |front| {
            assert front[j].name == n;
          }
        }
      }
    }
  }

  /** The wrapper's cookie container, as the list of the portal's cookies in order. */
  class CookieJar {
    var cookies: seq<Cookie>

    constructor()
      ensures cookies == []
    {
      cookies := [];
    }

    /** `GetCookies`: fills a dictionary from the cookies in order. */
    method GetCookies() returns (cookieDict: map<string, string>)
      ensures cookieDict == CookieDict(cookies)
    {
      cookieDict := map[];
      for i := 0 to |cookies|
        invariant cookieDict == CookieDict(cookies[..i])
      {
        assert cookies[..i + 1][..i] == cookies[..i];
        cookieDict := cookieDict[cookies[i].name := cookies[i].value];
      }
      assert cookies[..|cookies|] == cookies;
    }

    /** `SerializeCookies` up to the JSON text: one record per cookie, in order. */
    method SerializeCookies() returns (list: seq<CookieData>)
      ensures list == ToDataAll(cookies)
    {
      list := [];
      for i := 0 to |cookies|
        invariant list == ToDataAll(cookies[..i])
      {
        list := list + [ToData(cookies[i])];
      }
      assert cookies[..|cookies|] == cookies;
    }

    /** `DeserializeCookies` as written, from what the JSON parser yields: `Err` for a parse
        exception, `Ok(None)` for a null list. The guard reads "not null, or empty", so a
        parsed list returns false at once, and a null list passes the guard only to fail in
        the loop, which the catch turns into false: nothing is ever restored. */
    method DeserializeCookies(parsed: Result<Option<seq<CookieData>>>) returns (ok: bool)
      modifies this
      ensures !ok
      ensures cookies == old(cookies)
    {
      if parsed.Err? {
        return false;
      }
      var list := parsed.value;
      // `cookies?.Count == 0` is false for a null list: null is not equal to 0
      if list.Some? || (match list case None => false case Some(l) => |l| == 0) {
        return false;
      }
      // the loop dereferences the null list; the exception handler answers false
      ok := false;
    }

    /** `DeserializeCookies` with the guard the code evidently intends (null or empty list):
        a non-empty parsed list is added to the container cookie by cookie. The first record
        that `new Cookie` or `Add` rejects throws, and the handler answers false with the
        records before it already added; the answer is true when every record got in.
        Anything else leaves the container alone and answers false. */
    method RestoreCookies(parsed: Result<Option<seq<CookieData>>>) returns (ok: bool)
      modifies this
      ensures ok <==> parsed.Ok? && parsed.value.Some? && |parsed.value.value| > 0 &&
                      forall i :: 0 <= i < |parsed.value.value| ==> Admitted(parsed.value.value[i])
      ensures parsed.Ok? && parsed.value.Some? && |parsed.value.value| > 0 ==>
        cookies == old(cookies) + FromDataAll(parsed.value.value[..AdmittedPrefix(parsed.value.value)])
      ensures !(parsed.Ok? && parsed.value.Some? && |parsed.value.value| > 0) ==> cookies == old(cookies)
    {
      if parsed.Err? || parsed.value.None? || |parsed.value.value| == 0 {
        return false;
      }
      var list := parsed.value.value;
      ghost var before := cookies;
      for i := 0 to |list|
        invariant cookies == before + FromDataAll(list[..i])
        invariant forall j :: 0 <= j < i ==> Admitted(list[j])
      {
        if !Admitted(list[i]) {
          // the constructor or `Add` throws; the handler answers false
          assert AdmittedPrefix(list) == i;
          return false;
        }
        assert FromDataAll(list[..i + 1]) == FromDataAll(list[..i]) + [FromData(list[i])];
        cookies := cookies + [FromData(list[i])];
      }
      assert list[..|list|] == list;
      assert AdmittedPrefix(list) == |list|;
      ok := true;
    }
  }

  /** Saving the cookies of one jar and restoring them, with the corrected guard, into an
      empty jar gives back the cookies up to the first one the framework rejects, and so the
      whole jar when it held any cookie and every cookie was admitted. */
  method SaveThenRestore(source: CookieJar) returns (target: CookieJar, ok: bool)
    ensures fresh(target)
    ensures ok <==> |source.cookies| > 0 && forall i :: 0 <= i < |source.cookies| ==> Admitted(ToData(source.cookies[i]))
    ensures target.cookies == source.cookies[..AdmittedPrefix(ToDataAll(source.cookies))]
    ensures ok ==> target.cookies == source.cookies
  {
    var list := source.SerializeCookies();
    target := new CookieJar();
    ok := target.RestoreCookies(Ok(Some(list)));
    var n := AdmittedPrefix(list);
    forall i | 0 <= i < n
      ensures FromDataAll(list[..n])[i] == source.cookies[i]
    {
      CookieRoundTrip(source.cookies[i]);
    }
    assert FromDataAll(list[..n]) == source.cookies[..n];
  }
}
