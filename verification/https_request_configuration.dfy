/**
 The transport configuration and its builder: defaults, one setter per field,
 and `build`, which forms the listener URL `<url>/?token=<token>[&type=<type>]`,
 fails with a parameter error when that URL is malformed, and only then fails
 on a missing token. URL well-formedness (`java.net.URL`'s parser) is a
 predicate supplied by the caller.
 */
module HttpsRequestConfiguration {
  import opened Common

  const DEFAULT_LISTENER_URL: string := "https://listener.logz.io:8071"
  const TOKEN_PARAM: string := "/?token="
  const TYPE_PARAM: string := "&type="

  /** The immutable configuration; its getters are the fields. */
  datatype Configuration = Configuration(
    logzioToken: Option<string>,
    maxRetriesAttempts: int,
    initialWaitBeforeRetryMS: int,
    socketTimeout: int,
    connectTimeout: int,
    requestMethod: Option<string>,
    logzioListenerUrl: string,
    compressRequests: bool,
    logzioType: Option<string>)

  datatype Builder = Builder(
    maxRetriesAttempts: int,
    initialWaitBeforeRetryMS: int,
    socketTimeout: int,
    connectTimeout: int,
    requestMethod: Option<string>,
    logzioType: Option<string>,
    logzioListenerUrl: string,
    logzioToken: Option<string>,
    compressRequests: bool)

  function NewBuilder(): Builder {
    Builder(3, 2000, 10 * 1000, 10 * 1000, Some("POST"), None, DEFAULT_LISTENER_URL, None, false)
  }

  /** One setter call with its argument. */
  datatype Setting =
    | SetLogzioToken(token: Option<string>)
    | SetInitialWaitBeforeRetryMS(waitMs: int)
    | SetSocketTimeout(socketMs: int)
    | SetMaxRetriesAttempts(attempts: int)
    | SetConnectTimeout(connectMs: int)
    | SetRequestMethod(requestMethod: Option<string>)
    | SetLogzioType(logzioType: Option<string>)
    | SetLogzioListenerUrl(url: Option<string>)
    | SetCompressRequests(compress: bool)

  /** Applies a setter. Only the listener URL setter can fail: it compares its
      argument with the current URL by calling `equals` on the argument. */
  function Set(b: Builder, s: Setting): Result<Builder> {
    match s
    case SetLogzioToken(t) => Success(b.(logzioToken := t))
    case SetInitialWaitBeforeRetryMS(w) => Success(b.(initialWaitBeforeRetryMS := w))
    case SetSocketTimeout(t) => Success(b.(socketTimeout := t))
    case SetMaxRetriesAttempts(n) => Success(b.(maxRetriesAttempts := n))
    case SetConnectTimeout(t) => Success(b.(connectTimeout := t))
    case SetRequestMethod(m) => Success(b.(requestMethod := m))
    case SetLogzioType(t) => Success(b.(logzioType := t))
    case SetLogzioListenerUrl(u) =>
      if u.None? then Failure(NullPointer("logzioListenerUrl"))
      else if u.value == b.logzioListenerUrl then Success(b)
      else Success(b.(logzioListenerUrl := u.value))
    case SetCompressRequests(c) => Success(b.(compressRequests := c))
  }

  /** The builder's fields, to say which one a setter writes. */
  datatype Field =
    | TokenField | InitialWaitField | SocketTimeoutField | MaxRetriesField | ConnectTimeoutField
    | RequestMethodField | TypeField | ListenerUrlField | CompressField

  datatype Value = IntValue(i: int) | TextValue(t: Option<string>) | FlagValue(f: bool)

  function FieldOf(s: Setting): Field {
    match s
    case SetLogzioToken(_) => TokenField
    case SetInitialWaitBeforeRetryMS(_) => InitialWaitField
    case SetSocketTimeout(_) => SocketTimeoutField
    case SetMaxRetriesAttempts(_) => MaxRetriesField
    case SetConnectTimeout(_) => ConnectTimeoutField
    case SetRequestMethod(_) => RequestMethodField
    case SetLogzioType(_) => TypeField
    case SetLogzioListenerUrl(_) => ListenerUrlField
    case SetCompressRequests(_) => CompressField
  }

  function ValueOf(s: Setting): Value {
    match s
    case SetLogzioToken(t) => TextValue(t)
    case SetInitialWaitBeforeRetryMS(w) => IntValue(w)
    case SetSocketTimeout(t) => IntValue(t)
    case SetMaxRetriesAttempts(n) => IntValue(n)
    case SetConnectTimeout(t) => IntValue(t)
    case SetRequestMethod(m) => TextValue(m)
    case SetLogzioType(t) => TextValue(t)
    case SetLogzioListenerUrl(u) => TextValue(u)
    case SetCompressRequests(c) => FlagValue(c)
  }

  function Get(b: Builder, f: Field): Value {
    match f
    case TokenField => TextValue(b.logzioToken)
    case InitialWaitField => IntValue(b.initialWaitBeforeRetryMS)
    case SocketTimeoutField => IntValue(b.socketTimeout)
    case MaxRetriesField => IntValue(b.maxRetriesAttempts)
    case ConnectTimeoutField => IntValue(b.connectTimeout)
    case RequestMethodField => TextValue(b.requestMethod)
    case TypeField => TextValue(b.logzioType)
    case ListenerUrlField => TextValue(Some(b.logzioListenerUrl))
    case CompressField => FlagValue(b.compressRequests)
  }

  /** Each setter writes its own field with its argument and leaves every other
      field as it was; only a null listener URL fails. */
  lemma SetterWritesOnlyItsField(b: Builder, s: Setting)
    ensures Set(b, s).Failure? <==> s == SetLogzioListenerUrl(None)
    ensures Set(b, s).Success? ==>
              && Get(Set(b, s).value, FieldOf(s)) == ValueOf(s)
              && forall f :: f != FieldOf(s) ==> Get(Set(b, s).value, f) == Get(b, f)
  {
  }

  /** Setters of different fields commute. */
  lemma SettersCommute(b: Builder, s1: Setting, s2: Setting)
    requires FieldOf(s1) != FieldOf(s2)
    requires Set(b, s1).Success? && Set(b, s2).Success?
    ensures Set(Set(b, s1).value, s2).Success? && Set(Set(b, s2).value, s1).Success?
    ensures Set(Set(b, s1).value, s2).value == Set(Set(b, s2).value, s1).value
  {
  }

  /** Setting the listener URL it already has leaves the builder unchanged. */
  lemma SetListenerUrlIdempotent(b: Builder)
    ensures Set(b, SetLogzioListenerUrl(Some(b.logzioListenerUrl))) == Success(b)
  {
  }

  /** The listener URL; Java renders a null token as "null". */
  function ListenerUrl(url: string, token: Option<string>, logzioType: Option<string>): string {
    match logzioType
    case None => url + TOKEN_PARAM + NullToString(token)
    case Some(t) => url + TOKEN_PARAM + NullToString(token) + TYPE_PARAM + t
  }

  predicate OccursAt(s: string, pat: string, j: nat) {
    j + |pat| <= |s| && s[j..j + |pat|] == pat
  }

  /** The first occurrence of `pat` in `s` at or after `k`, or `|s|` if none. */
  function IndexFrom(s: string, pat: string, k: nat): (i: nat)
    requires |pat| > 0 && k <= |s|
    ensures k <= i <= |s|
    ensures i < |s| ==> OccursAt(s, pat, i)
    ensures forall j :: k <= j < i ==> !OccursAt(s, pat, j)
    decreases |s| - k
  {
    if k + |pat| > |s| then |s|
    else if OccursAt(s, pat, k) then k
    else IndexFrom(s, pat, k + 1)
  }

  /** Reads the token and type back out of a listener URL built on `url`. */
  function ParseListenerUrl(url: string, s: string): Option<(string, Option<string>)> {
    var prefix := url + TOKEN_PARAM;
    if |s| < |prefix| || s[..|prefix|] != prefix then None
    else
      var query := s[|prefix|..];
      var i := IndexFrom(query, TYPE_PARAM, 0);
      if i >= |query| then Some((query, None))
      else Some((query[..i], Some(query[i + |TYPE_PARAM|..])))
  }

  /** A token that does not contain "&type=" is read back from the URL, together
      with the type, exactly as given. */
  lemma ListenerUrlRoundTrip(url: string, token: string, logzioType: Option<string>)
    requires forall j :: 0 <= j <= |token| ==> !OccursAt(token, TYPE_PARAM, j)
    ensures ParseListenerUrl(url, ListenerUrl(url, Some(token), logzioType)) == Some((token, logzioType))
  {
    var prefix := url + TOKEN_PARAM;
    var s := ListenerUrl(url, Some(token), logzioType);
    match logzioType
    case None =>
      assert s == prefix + token;
      assert s[..|prefix|] == prefix && s[|prefix|..] == token;
      var i := IndexFrom(token, TYPE_PARAM, 0);
      assert i == |token|;
    case Some(t) =>
      var query := token + TYPE_PARAM + t;
      assert s == prefix + query;
      assert s[..|prefix|] == prefix && s[|prefix|..] == query;
      var n := |token|;
      assert query[n..n + 6] == TYPE_PARAM;
      forall j | 0 <= j < n
        ensures !OccursAt(query, TYPE_PARAM, j)
      {
        if j + 6 <= n {
          assert query[j..j + 6] == token[j..j + 6];
          assert !OccursAt(token, TYPE_PARAM, j);
        } else {
          assert query[j..j + 6][n - j] == '&';
          assert TYPE_PARAM[n - j] != '&';
        }
      }
      assert OccursAt(query, TYPE_PARAM, n);
      var i := IndexFrom(query, TYPE_PARAM, 0);
      assert i == n;
      assert query[..n] == token && query[n + 6..] == t;
  }

  /** `build`: the URL is checked first, then the token. */
  function Build(b: Builder, wellFormed: string -> bool): (r: Result<Configuration>)
    ensures var url := ListenerUrl(b.logzioListenerUrl, b.logzioToken, b.logzioType);
      && (!wellFormed(url) <==> r.Failure? && r.error.ParameterError?)
      && (wellFormed(url) && b.logzioToken.None? <==> r.Failure? && r.error.NullPointer?)
      && (r.Success? ==>
            && r.value.logzioListenerUrl == url
            && r.value.logzioToken == b.logzioToken
            && r.value.maxRetriesAttempts == b.maxRetriesAttempts
            && r.value.initialWaitBeforeRetryMS == b.initialWaitBeforeRetryMS
            && r.value.socketTimeout == b.socketTimeout
            && r.value.connectTimeout == b.connectTimeout
            && r.value.requestMethod == b.requestMethod
            && r.value.compressRequests == b.compressRequests
            && r.value.logzioType == b.logzioType)
  {
    var url := ListenerUrl(b.logzioListenerUrl, b.logzioToken, b.logzioType);
    if !wellFormed(url) then
      Failure(ParameterError(
        "logzioUrl=" + b.logzioListenerUrl + " token=" + NullToString(b.logzioToken)
          + " type=" + NullToString(b.logzioType),
        "For some reason could not initialize URL. Cant recover.."))
    else if b.logzioToken.None? then
      Failure(NullPointer("logzioToken can't be null"))
    else
      Success(Configuration(b.logzioToken, b.maxRetriesAttempts, b.initialWaitBeforeRetryMS,
                            b.socketTimeout, b.connectTimeout, b.requestMethod, url,
                            b.compressRequests, b.logzioType))
  }

  /** The defaults: 3 attempts, a 2000 ms first back-off, 10 s timeouts, POST to
      the public listener, no compression, no type; with only a token set the
      URL is the listener's with just that token. */
  lemma DefaultBuild(token: string, wellFormed: string -> bool)
    requires wellFormed(DEFAULT_LISTENER_URL + "/?token=" + token)
    ensures var r := Build(Set(NewBuilder(), SetLogzioToken(Some(token))).value, wellFormed);
      && r.Success?
      && r.value == Configuration(Some(token), 3, 2000, 10000, 10000, Some("POST"),
                                  "https://listener.logz.io:8071/?token=" + token, false, None)
  {
  }
}
