/** The SendStreak API client: it shapes each call into a POST request whose
    options are the JSON body, the defaults (base URI and headers) and the
    caller's own options merged with `array_merge_recursive`, and it turns
    every failure into one log line instead of an exception. The HTTP
    transport and the logger are not modelled: the transport's outcome is an
    input and the log is the list of lines the client writes. */
module Client {
  import opened Wrappers
  import opened OrderedMap
  import opened Php
  import Contacts

  /** `apiKey` is the key sent as a bearer token; `options` are the caller's
      extra request options, merged over the defaults. */
  datatype Client = Client(apiKey: string, options: PhpArray)

  datatype ClientError =
    | MissingApiKey   // the constructor was given a falsy key
    | InvalidApiKey   // `setApiKey` was given a falsy key

  /** The result of `setApiKey`: the client afterwards and the exception, if any. */
  datatype Step = Step(after: Client, thrown: Option<ClientError>)

  const BaseUri: string := "https://api.sendstreak.com"
  const MessagesPath: string := "/v1/messages"
  const ContactsPath: string := "/v1/contacts"
  const Unauthorized: int := 401

  const JsonKey: Key := StrKey("json")
  const BaseUriKey: Key := StrKey("base_uri")
  const HeadersKey: Key := StrKey("headers")
  const AuthorizationKey: Key := StrKey("Authorization")
  const ContentTypeKey: Key := StrKey("Content-Type")

  /** `new SendStreakClient($apiKey, $logger, $options)`. */
  function New(apiKey: string, options: PhpArray): (r: Result<Client, ClientError>)
    ensures r.Success? <==> !Falsy(apiKey)
    ensures r.Failure? ==> r.error == MissingApiKey
    ensures r.Success? ==> GetApiKey(r.value) == apiKey && GetOptions(r.value) == options
  {
    if Falsy(apiKey) then Failure(MissingApiKey) else Success(Client(apiKey, options))
  }

  function GetApiKey(c: Client): string {
    c.apiKey
  }

  function GetOptions(c: Client): PhpArray {
    c.options
  }

  /** `setApiKey`: a falsy key throws and changes nothing; any other key
      replaces the current one and leaves the options alone. */
  function SetApiKey(c: Client, value: string): (r: Step)
    ensures r.thrown.Some? <==> Falsy(value)
    ensures r.thrown.Some? ==> r.after == c && r.thrown.value == InvalidApiKey
    ensures r.thrown.None? ==> GetApiKey(r.after) == value && GetOptions(r.after) == GetOptions(c)
    ensures !Falsy(GetApiKey(c)) ==> !Falsy(GetApiKey(r.after))
  {
    if Falsy(value) then Step(c, Some(InvalidApiKey)) else Step(c.(apiKey := value), None)
  }

  /** `setOptions`: the options read back as given; the key is kept. */
  function SetOptions(c: Client, options: PhpArray): (r: Client)
    ensures GetOptions(r) == options && GetApiKey(r) == GetApiKey(c)
  {
    c.(options := options)
  }

  // ---------------------------------------------------------------------------
  // Request shaping
  // ---------------------------------------------------------------------------

  /** `createMailPayload`: recipient, then template slug, then the variables
      when there are any. */
  function MailPayload(recipient: string, templateSlug: string, variables: PhpArray): (r: PhpArray)
    ensures Keys(r) == [StrKey("rcpt"), StrKey("templateSlug")] + (if variables == [] then [] else [StrKey("variables")])
    ensures Find(r, StrKey("rcpt")) == Some(Str(recipient))
    ensures Find(r, StrKey("templateSlug")) == Some(Str(templateSlug))
    ensures Find(r, StrKey("variables")) == if variables == [] then None else Some(Arr(variables))
    ensures UniqueKeys(r)
  {
    var payload := [(StrKey("rcpt"), Str(recipient)), (StrKey("templateSlug"), Str(templateSlug))];
    var r := if variables == [] then payload else payload + [(StrKey("variables"), Arr(variables))];
    assert Keys(r) == [StrKey("rcpt"), StrKey("templateSlug")] + (if variables == [] then [] else [StrKey("variables")]);
    FindAt(r, 0);
    FindAt(r, 1);
    if variables == [] then r
    else
      FindAt(r, 2);
      r
  }

  /** The `headers` default. */
  function DefaultHeaders(apiKey: string): PhpArray {
    [(AuthorizationKey, Str("Bearer " + apiKey)), (ContentTypeKey, Str("application/json"))]
  }

  /** `getDefaultOptions`. */
  function DefaultOptions(apiKey: string): PhpArray {
    [(BaseUriKey, Str(BaseUri)), (HeadersKey, Arr(DefaultHeaders(apiKey)))]
  }

  /** `createClientOptions`: the body under `json`, merged with the defaults,
      then merged with the client's own options. */
  function ClientOptions(c: Client, body: PhpArray): PhpArray {
    ArrayMergeRecursive(ArrayMergeRecursive([(JsonKey, Arr(body))], DefaultOptions(c.apiKey)), c.options)
  }

  /** What the client sets up before the caller's options: the body, the base
      URI and the headers, in that order. */
  function BuiltIn(apiKey: string, body: PhpArray): PhpArray {
    [(JsonKey, Arr(body))] + DefaultOptions(apiKey)
  }

  /** The built-in layers hold three distinct keys, in order. */
  lemma BuiltInFacts(apiKey: string, body: PhpArray)
    ensures Keys(BuiltIn(apiKey, body)) == [JsonKey, BaseUriKey, HeadersKey]
    ensures UniqueKeys(BuiltIn(apiKey, body))
    ensures Find(BuiltIn(apiKey, body), JsonKey) == Some(Arr(body))
    ensures Find(BuiltIn(apiKey, body), BaseUriKey) == Some(Str(BaseUri))
    ensures Find(BuiltIn(apiKey, body), HeadersKey) == Some(Arr(DefaultHeaders(apiKey)))
  {
    var b := BuiltIn(apiKey, body);
    assert Keys(b) == [JsonKey, BaseUriKey, HeadersKey];
    FindAt(b, 0);
    FindAt(b, 1);
    FindAt(b, 2);
  }

  lemma DefaultHeadersFacts(apiKey: string)
    ensures Keys(DefaultHeaders(apiKey)) == [AuthorizationKey, ContentTypeKey]
    ensures UniqueKeys(DefaultHeaders(apiKey))
    ensures Find(DefaultHeaders(apiKey), AuthorizationKey) == Some(Str("Bearer " + apiKey))
    ensures Find(DefaultHeaders(apiKey), ContentTypeKey) == Some(Str("application/json"))
  {
    var h := DefaultHeaders(apiKey);
    assert Keys(h) == [AuthorizationKey, ContentTypeKey];
    FindAt(h, 0);
    FindAt(h, 1);
  }

  /** Merging the defaults into the body layer only concatenates them. */
  lemma BodyThenDefaults(apiKey: string, body: PhpArray)
    ensures ArrayMergeRecursive([(JsonKey, Arr(body))], DefaultOptions(apiKey)) == BuiltIn(apiKey, body)
  {
    var j: PhpArray := [(JsonKey, Arr(body))];
    MergeAppendsNewStrings([], j);
    assert [] + j == j;
    assert Keys(j) == [JsonKey];
    MergeAppendsNewStrings(j, DefaultOptions(apiKey));
  }

  /** Copying the built-in layers into a fresh array changes nothing. */
  lemma BuiltInCopied(apiKey: string, body: PhpArray)
    ensures MergeInto([], BuiltIn(apiKey, body)) == BuiltIn(apiKey, body)
  {
    var b := BuiltIn(apiKey, body);
    BuiltInFacts(apiKey, body);
    MergeAppendsNewStrings([], b);
    assert [] + b == b;
  }

  /** The first merge only concatenates, and the second is the merge of the
      caller's options into that. */
  lemma ClientOptionsLayers(c: Client, body: PhpArray)
    ensures ArrayMergeRecursive([(JsonKey, Arr(body))], DefaultOptions(c.apiKey)) == BuiltIn(c.apiKey, body)
    ensures ClientOptions(c, body) == MergeInto(BuiltIn(c.apiKey, body), c.options)
  {
    BodyThenDefaults(c.apiKey, body);
    BuiltInCopied(c.apiKey, body);
  }

  /** Without options of its own the client sends exactly the body, the base
      URI and the two headers. */
  lemma NoUserOptions(c: Client, body: PhpArray)
    requires c.options == []
    ensures ClientOptions(c, body) == [
      (JsonKey, Arr(body)),
      (BaseUriKey, Str(BaseUri)),
      (HeadersKey, Arr([(AuthorizationKey, Str("Bearer " + c.apiKey)), (ContentTypeKey, Str("application/json"))]))]
  {
    ClientOptionsLayers(c, body);
  }

  /** Each string-keyed option holds the built-in value merged with the
      caller's: nothing the caller sets is lost and nothing is overridden. */
  lemma ClientOptionsFind(c: Client, body: PhpArray, x: string)
    requires UniqueKeys(c.options)
    ensures Find(ClientOptions(c, body), StrKey(x)) == Merged(Find(BuiltIn(c.apiKey, body), StrKey(x)), Find(c.options, StrKey(x)))
  {
    ClientOptionsLayers(c, body);
    MergeStringKey(BuiltIn(c.apiKey, body), c.options, x);
  }

  /** No option is dropped and none is invented: a string key is present
      exactly when the built-in layers or the caller's options have it. */
  lemma NoOptionDropped(c: Client, body: PhpArray, x: string)
    requires UniqueKeys(c.options)
    ensures HasKey(ClientOptions(c, body), StrKey(x))
        <==> HasKey(BuiltIn(c.apiKey, body), StrKey(x)) || HasKey(c.options, StrKey(x))
  {
    ClientOptionsFind(c, body, x);
  }

  /** The integer-keyed options are the caller's, in order, and the options
      form a proper array. */
  lemma ClientOptionsList(c: Client, body: PhpArray)
    ensures ListValues(ClientOptions(c, body)) == ListValues(c.options)
    ensures UniqueKeys(ClientOptions(c, body))
  {
    ClientOptionsLayers(c, body);
    var b := BuiltIn(c.apiKey, body);
    MergeListValues(b, c.options);
    assert b[1..][1..][1..] == [];
    assert ListValues(b[1..][1..]) == [];
    assert ListValues(b[1..]) == [];
    assert ListValues(b) == [];
    MergeKeepsDest(b, c.options);
  }

  /** Unless the caller sets a `json` option, the body is sent unchanged. */
  lemma BodySentUnchanged(c: Client, body: PhpArray)
    requires UniqueKeys(c.options) && !HasKey(c.options, JsonKey)
    ensures Find(ClientOptions(c, body), JsonKey) == Some(Arr(body))
  {
    ClientOptionsFind(c, body, "json");
    BuiltInFacts(c.apiKey, body);
  }

  /** Unless the caller sets `headers`, the request carries the bearer token
      and the JSON content type and no other header. */
  lemma BearerHeaderSent(c: Client, body: PhpArray)
    requires UniqueKeys(c.options) && !HasKey(c.options, HeadersKey)
    ensures Find(ClientOptions(c, body), HeadersKey) == Some(Arr(DefaultHeaders(c.apiKey)))
    ensures Find(DefaultHeaders(c.apiKey), AuthorizationKey) == Some(Str("Bearer " + c.apiKey))
    ensures Keys(DefaultHeaders(c.apiKey)) == [AuthorizationKey, ContentTypeKey]
  {
    ClientOptionsFind(c, body, "headers");
    BuiltInFacts(c.apiKey, body);
    DefaultHeadersFacts(c.apiKey);
  }

  /** A `base_uri` of the caller's does not replace the default: the option
      becomes the list of both addresses, the default first. */
  lemma UserBaseUriBecomesList(c: Client, body: PhpArray, uri: string)
    requires UniqueKeys(c.options) && Find(c.options, BaseUriKey) == Some(Str(uri))
    ensures Find(ClientOptions(c, body), BaseUriKey) == Some(Arr([(IntKey(0), Str(BaseUri)), (IntKey(1), Str(uri))]))
  {
    ClientOptionsFind(c, body, "base_uri");
    BuiltInFacts(c.apiKey, body);
    var first: PhpArray := [(IntKey(0), Str(BaseUri))];
    assert AsList(Str(BaseUri)) == first;
    assert NextIndex(first) == 1;
    assert Combine(Str(BaseUri), Str(uri)) == Arr(first + [(IntKey(1), Str(uri))]);
    assert first + [(IntKey(1), Str(uri))] == [(IntKey(0), Str(BaseUri)), (IntKey(1), Str(uri))];
  }

  /** Headers of the caller's are merged into the defaults; an `Authorization`
      header of theirs is sent after the bearer token, not instead of it. */
  lemma UserHeadersMerged(c: Client, body: PhpArray, headers: PhpArray)
    requires UniqueKeys(c.options) && Find(c.options, HeadersKey) == Some(Arr(headers))
    requires UniqueKeys(headers)
    ensures Find(ClientOptions(c, body), HeadersKey) == Some(Arr(MergeInto(DefaultHeaders(c.apiKey), headers)))
    ensures HasKey(headers, AuthorizationKey) ==>
      Find(MergeInto(DefaultHeaders(c.apiKey), headers), AuthorizationKey)
        == Some(Combine(Str("Bearer " + c.apiKey), Find(headers, AuthorizationKey).value))
    ensures !HasKey(headers, AuthorizationKey) ==>
      Find(MergeInto(DefaultHeaders(c.apiKey), headers), AuthorizationKey) == Some(Str("Bearer " + c.apiKey))
  {
    HeadersOptionMerged(c, body, headers);
    AuthorizationMerged(c.apiKey, headers);
  }

  lemma HeadersOptionMerged(c: Client, body: PhpArray, headers: PhpArray)
    requires UniqueKeys(c.options) && Find(c.options, HeadersKey) == Some(Arr(headers))
    ensures Find(ClientOptions(c, body), HeadersKey) == Some(Arr(MergeInto(DefaultHeaders(c.apiKey), headers)))
  {
    var h := DefaultHeaders(c.apiKey);
    ClientOptionsFind(c, body, "headers");
    BuiltInFacts(c.apiKey, body);
    assert Combine(Arr(h), Arr(headers)) == Arr(MergeInto(h, headers));
    assert Merged(Some(Arr(h)), Some(Arr(headers))) == Some(Combine(Arr(h), Arr(headers)));
  }

  lemma AuthorizationMerged(apiKey: string, headers: PhpArray)
    requires UniqueKeys(headers)
    ensures HasKey(headers, AuthorizationKey) ==>
      Find(MergeInto(DefaultHeaders(apiKey), headers), AuthorizationKey)
        == Some(Combine(Str("Bearer " + apiKey), Find(headers, AuthorizationKey).value))
    ensures !HasKey(headers, AuthorizationKey) ==>
      Find(MergeInto(DefaultHeaders(apiKey), headers), AuthorizationKey) == Some(Str("Bearer " + apiKey))
  {
    MergeStringKey(DefaultHeaders(apiKey), headers, "Authorization");
    DefaultHeadersFacts(apiKey);
  }

  // ---------------------------------------------------------------------------
  // Calls and failure handling
  // ---------------------------------------------------------------------------

  /** What the HTTP transport did with a request: a response it accepted, an
      error response (a `BadResponseException`, with the response's status
      and the exception's message), any other exception raised while the
      request was under way, or an exception raised by the call into the
      transport itself, before a promise for the request existed (for
      instance on options it refuses). */
  datatype Outcome =
    | Delivered(status: int)
    | BadResponse(status: int, message: string)
    | Thrown(message: string)
    | Refused(message: string)

  /** The request handed to the transport. */
  datatype Request = Request(httpMethod: string, path: string, options: PhpArray)

  /** A synchronous call: the request sent and the lines logged. */
  datatype Call = Call(request: Request, logged: seq<string>)

  /** The promise `requestAsync(...)->otherwise(...)` returns. */
  datatype Promise = Fulfilled(response: Option<int>) | Rejected(reason: string)

  /** An asynchronous call: the request, the lines the failure handler logs,
      and what the call gives back: the promise, with how it settles, or the
      message of an exception that escapes to the caller. */
  datatype AsyncCall = AsyncCall(request: Request, logged: seq<string>, returned: Result<Promise, string>)

  const LogPrefix: string := "Error invoking the SendStreak API. "
  const InvalidKeyLine: string := LogPrefix + "An invalid API key was provided."

  function ErrorLine(message: string): string {
    LogPrefix + "Error message: " + message
  }

  /** The lines the client logs for an outcome (`handleBadResponse` and the
      generic handler): nothing on success, the invalid-key line for a 401
      response, the exception's message otherwise. */
  function FailureLog(o: Outcome): (log: seq<string>)
    ensures log == [] <==> o.Delivered?
    ensures o.BadResponse? && o.status == Unauthorized ==> log == [InvalidKeyLine]
    ensures o.Thrown? || o.Refused? || (o.BadResponse? && o.status != Unauthorized) ==> log == [ErrorLine(o.message)]
  {
    match o
    case Delivered(_) => []
    case BadResponse(status, message) =>
      if status == Unauthorized then [InvalidKeyLine] else [ErrorLine(message)]
    case Thrown(message) => [ErrorLine(message)]
    case Refused(message) => [ErrorLine(message)]
  }

  /** The invalid-key line is never an error-message line, and an error-message
      line gives back its message: the log tells a rejected key apart from
      every other failure. */
  lemma LogLinesDistinct(m: string, m': string)
    ensures ErrorLine(m) != InvalidKeyLine
    ensures ErrorLine(m) == ErrorLine(m') ==> m == m'
  {
    var n := |LogPrefix|;
    assert ErrorLine(m)[n] == 'E';
    assert InvalidKeyLine[n] == 'A';
    var p := LogPrefix + "Error message: ";
    if ErrorLine(m) == ErrorLine(m') {
      assert ErrorLine(m)[|p|..] == m;
      assert ErrorLine(m')[|p|..] == m';
    }
  }

  /** Two outcomes log the same line only if both are successes, both are 401
      responses, or both are other failures with the same message. */
  lemma FailureLogIdentifiesCause(o: Outcome, o': Outcome)
    requires FailureLog(o) == FailureLog(o')
    ensures o.Delivered? <==> o'.Delivered?
    ensures (o.BadResponse? && o.status == Unauthorized) <==> (o'.BadResponse? && o'.status == Unauthorized)
    ensures !o.Delivered? && !(o.BadResponse? && o.status == Unauthorized) ==> o.message == o'.message
  {
    if !o.Delivered? && !(o.BadResponse? && o.status == Unauthorized) {
      LogLinesDistinct(o.message, if o'.Delivered? then "" else o'.message);
    } else if !o'.Delivered? && !(o'.BadResponse? && o'.status == Unauthorized) {
      LogLinesDistinct(o'.message, "");
    }
  }

  /** `invokeSendStreakApi`: one POST to `path` with the merged options;
      any failure is logged, never thrown. */
  function Invoke(c: Client, path: string, body: PhpArray, outcome: Outcome): (r: Call)
    ensures r.request.httpMethod == "POST" && r.request.path == path
    ensures r.request.options == ClientOptions(c, body)
    ensures r.logged == FailureLog(outcome)
  {
    Call(Request("POST", path, ClientOptions(c, body)), FailureLog(outcome))
  }

  /** `invokeSendStreakApiAsync`: the same request as the synchronous call.
      Once a promise exists, the failure handler logs what the synchronous
      call logs and returns nothing, so the promise is fulfilled either way,
      with the response only on success. No `try` surrounds the call into the
      transport, so an exception it raises before a promise exists escapes
      to the caller and nothing is logged. */
  function InvokeAsync(c: Client, path: string, body: PhpArray, outcome: Outcome): (r: AsyncCall)
    ensures r.request == Invoke(c, path, body, outcome).request
    ensures r.returned.Failure? <==> outcome.Refused?
    ensures outcome.Refused? ==> r.logged == [] && r.returned.error == outcome.message
    ensures !outcome.Refused? ==> r.logged == Invoke(c, path, body, outcome).logged
    ensures r.returned.Success? ==> r.returned.value.Fulfilled?
    ensures r.returned.Success? ==> (r.returned.value.response.Some? <==> outcome.Delivered?)
    ensures outcome.Delivered? ==> r.returned == Success(Fulfilled(Some(outcome.status)))
  {
    var request := Request("POST", path, ClientOptions(c, body));
    match outcome
    case Delivered(status) => AsyncCall(request, [], Success(Fulfilled(Some(status))))
    case Refused(message) => AsyncCall(request, [], Failure(message))
    case _ => AsyncCall(request, FailureLog(outcome), Success(Fulfilled(None)))
  }

  /** The asynchronous call logs what the synchronous one logs exactly when
      the transport accepted the call; when it refused it, the synchronous
      call logs the error line and the asynchronous one logs nothing. */
  lemma AsyncLogsLikeSync(c: Client, path: string, body: PhpArray, outcome: Outcome)
    ensures InvokeAsync(c, path, body, outcome).logged == Invoke(c, path, body, outcome).logged
        <==> !outcome.Refused?
    ensures outcome.Refused? ==> Invoke(c, path, body, outcome).logged == [ErrorLine(outcome.message)]
  {
  }

  /** `sendMail`: a POST to `/v1/messages` with the mail payload as body. */
  function SendMail(c: Client, recipient: string, templateSlug: string, variables: PhpArray, outcome: Outcome): (r: Call)
    ensures r.request.path == MessagesPath && r.request.httpMethod == "POST"
    ensures r.request.options == ClientOptions(c, MailPayload(recipient, templateSlug, variables))
    ensures r.logged == FailureLog(outcome)
  {
    Invoke(c, MessagesPath, MailPayload(recipient, templateSlug, variables), outcome)
  }

  /** `sendMailAsync`: `sendMail` through the asynchronous path. */
  function SendMailAsync(c: Client, recipient: string, templateSlug: string, variables: PhpArray, outcome: Outcome): (r: AsyncCall)
    ensures r.request == SendMail(c, recipient, templateSlug, variables, outcome).request
    ensures r.returned.Failure? <==> outcome.Refused?
    ensures outcome.Refused? ==> r.logged == []
    ensures !outcome.Refused? ==> r.logged == SendMail(c, recipient, templateSlug, variables, outcome).logged
    ensures r.returned.Success? ==> r.returned.value.Fulfilled?
  {
    InvokeAsync(c, MessagesPath, MailPayload(recipient, templateSlug, variables), outcome)
  }

  /** `updateContact`: a POST to `/v1/contacts` with the serialised contact as body. */
  function UpdateContact(c: Client, contact: Contacts.Contact, outcome: Outcome): (r: Call)
    requires UniqueKeys(contact.data)
    ensures r.request.path == ContactsPath && r.request.httpMethod == "POST"
    ensures r.request.options == ClientOptions(c, Contacts.Serialize(contact))
    ensures r.logged == FailureLog(outcome)
  {
    Invoke(c, ContactsPath, Contacts.Serialize(contact), outcome)
  }

  /** `updateContactAsync`: `updateContact` through the asynchronous path. */
  function UpdateContactAsync(c: Client, contact: Contacts.Contact, outcome: Outcome): (r: AsyncCall)
    requires UniqueKeys(contact.data)
    ensures r.request == UpdateContact(c, contact, outcome).request
    ensures r.returned.Failure? <==> outcome.Refused?
    ensures outcome.Refused? ==> r.logged == []
    ensures !outcome.Refused? ==> r.logged == UpdateContact(c, contact, outcome).logged
    ensures r.returned.Success? ==> r.returned.value.Fulfilled?
  {
    InvokeAsync(c, ContactsPath, Contacts.Serialize(contact), outcome)
  }

  /** The mail request carries recipient and template, and the variables
      exactly when there are some, unless the caller overrides `json`. */
  lemma SendMailBody(c: Client, recipient: string, templateSlug: string, variables: PhpArray, outcome: Outcome)
    requires UniqueKeys(c.options) && !HasKey(c.options, JsonKey)
    ensures Find(SendMail(c, recipient, templateSlug, variables, outcome).request.options, JsonKey)
         == Some(Arr(MailPayload(recipient, templateSlug, variables)))
  {
    BodySentUnchanged(c, MailPayload(recipient, templateSlug, variables));
  }

  /** The contact request's body starts with the address, unless the caller
      overrides `json`. */
  lemma UpdateContactBody(c: Client, contact: Contacts.Contact, outcome: Outcome)
    requires UniqueKeys(c.options) && !HasKey(c.options, JsonKey)
    requires Contacts.Valid(contact) && !HasKey(contact.data, Contacts.EmailKey)
    ensures Find(UpdateContact(c, contact, outcome).request.options, JsonKey)
         == Some(Arr(Contacts.Serialize(contact)))
    ensures Find(Contacts.Serialize(contact), Contacts.EmailKey) == Some(Str(contact.email))
  {
    BodySentUnchanged(c, Contacts.Serialize(contact));
  }
}
