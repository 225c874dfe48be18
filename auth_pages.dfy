/**
 * The sign-in and sign-up forms (src/pages/Login.tsx, src/pages/Register.tsx):
 * reading the token out of the server's answer, and what a submit leaves in the
 * form's state: the loading flag, the error shown, the token handed to the auth
 * context, and where the router is sent.
 */
module AuthPages {
  import opened Wrappers
  import opened JsValue
  import opened JsString

  const NoTokenMessage := "Login succeeded but no token was returned."
  const SignInFallback := "Unable to sign in."
  const SignUpFallback := "Unable to create account."
  const MismatchMessage := "Passwords do not match."

  /**
   * extractToken: only an object payload can hold a token; its `access_token`
   * is used unless that is null or missing, then its `token`; the value chosen
   * counts only if it is a string, with no second try at the other field.
   */
  function ExtractToken(payload: Json): (r: Option<string>)
    ensures !payload.JObject? ==> r == None
    ensures payload.JObject? && HasValue(payload.fields, "access_token") ==>
      (r.Some? <==> payload.fields["access_token"].JString?) &&
      (r.Some? ==> JString(r.value) == payload.fields["access_token"])
    ensures payload.JObject? && !HasValue(payload.fields, "access_token") ==>
      (r.Some? <==> "token" in payload.fields && payload.fields["token"].JString?) &&
      (r.Some? ==> JString(r.value) == payload.fields["token"])
  {
    match payload
    case JObject(fields) =>
      var chosen :=
        if HasValue(fields, "access_token") then Some(fields["access_token"])
        else if "token" in fields then Some(fields["token"])
        else None;
      if chosen.Some? && chosen.value.JString? then Some(chosen.value.s) else None
    case _ => None
  }

  /** An `access_token` that is present but not a string hides a string `token`. */
  lemma NoFallbackToToken(fields: map<string, Json>)
    requires HasValue(fields, "access_token") && !fields["access_token"].JString?
    ensures ExtractToken(JObject(fields)) == None
  {
  }

  /** `!token`: a missing token and an empty one both count as no token. */
  predicate HasToken(payload: Json) {
    var token := ExtractToken(payload);
    token.Some? && token.value != ""
  }

  /** `err instanceof Error ? err.message : fallback` */
  function MessageOf(thrown: Thrown, fallback: string): (r: string)
    ensures thrown.ErrorObject? ==> r == thrown.message
    ensures thrown.NonError? ==> r == fallback
  {
    match thrown
    case ErrorObject(message) => message
    case NonError => fallback
  }

  /**
   * The confirm-password validator: an empty or missing value passes, so does
   * one equal to the password; anything else is rejected with the mismatch
   * message. None is a pass, Some a rejection with its message.
   */
  function ConfirmPasswordCheck(password: Option<string>, value: Option<string>): (r: Option<string>)
    ensures r.None? <==> value.None? || value.value == "" || password == value
    ensures r.Some? ==> r.value == MismatchMessage
  {
    if value.None? || value.value == "" || password == value then None else Some(MismatchMessage)
  }

  /** Typing the password again, exactly, always passes; so does leaving the field empty. */
  lemma ConfirmAcceptsRepeat(password: string)
    ensures ConfirmPasswordCheck(Some(password), Some(password)) == None
    ensures ConfirmPasswordCheck(Some(password), Some("")) == None
  {
  }

  /** The state a submit changes, shared by both forms. */
  class FormState {
    var loading: bool
    var error: Option<string>
    /** The token handed to the auth context's login, if any. */
    var signedIn: Option<string>
    /** Where navigate() sent the router, if anywhere. */
    var location: Option<string>
    /** The email and password sent with the request. */
    var sent: Option<(string, string)>

    constructor()
      ensures !loading && error == None && signedIn == None && location == None && sent == None
    {
      loading := false;
      error := None;
      signedIn := None;
      location := None;
      sent := None;
    }
  }

  /**
   * Login's onSubmit as written, given what the login request settles to. After
   * login(token) it awaits clearCacheAndRefresh from the chat context, but the
   * chat context has no such member (src/chat/ChatContext.tsx:93-104), so the
   * call throws a TypeError whose engine-given message is `missingCallMessage`:
   * a valid token is stored, the error is shown, and the router stays put.
   */
  method LoginSubmit(form: FormState, email: string, password: string, response: Completion<Json>, missingCallMessage: string)
    modifies form
    ensures !form.loading && form.sent == Some((Trim(email), password)) && form.location == old(form.location)
    ensures response.Abrupt? ==>
      form.error == Some(MessageOf(response.thrown, SignInFallback)) && form.signedIn == old(form.signedIn)
    ensures response.Normal? && !HasToken(response.value) ==>
      form.error == Some(NoTokenMessage) && form.signedIn == old(form.signedIn)
    ensures response.Normal? && HasToken(response.value) ==>
      form.signedIn == ExtractToken(response.value) && form.error == Some(missingCallMessage)
  {
    form.error := None;
    form.loading := true;
    form.sent := Some((Trim(email), password));
    match response {
      case Abrupt(thrown) =>
        form.error := Some(MessageOf(thrown, SignInFallback));
      case Normal(payload) =>
        var token := ExtractToken(payload);
        if token.None? || token.value == "" {
          form.error := Some(NoTokenMessage);
        } else {
          form.signedIn := token;
          form.error := Some(missingCallMessage);
        }
    }
    form.loading := false;
  }

  /**
   * Login's onSubmit as evidently intended: after login(token) the chat state is
   * refreshed (`refresh` is what that settles to) and the router goes to "/".
   */
  method LoginSubmitWithRefresh(form: FormState, email: string, password: string, response: Completion<Json>, refresh: Completion<()>)
    modifies form
    ensures !form.loading && form.sent == Some((Trim(email), password))
    ensures response.Abrupt? ==>
      form.error == Some(MessageOf(response.thrown, SignInFallback)) && form.signedIn == old(form.signedIn) && form.location == old(form.location)
    ensures response.Normal? && !HasToken(response.value) ==>
      form.error == Some(NoTokenMessage) && form.signedIn == old(form.signedIn) && form.location == old(form.location)
    ensures response.Normal? && HasToken(response.value) ==> form.signedIn == ExtractToken(response.value)
    ensures response.Normal? && HasToken(response.value) && refresh.Normal? ==> form.error == None && form.location == Some("/")
    ensures response.Normal? && HasToken(response.value) && refresh.Abrupt? ==>
      form.error == Some(MessageOf(refresh.thrown, SignInFallback)) && form.location == old(form.location)
  {
    form.error := None;
    form.loading := true;
    form.sent := Some((Trim(email), password));
    match response {
      case Abrupt(thrown) =>
        form.error := Some(MessageOf(thrown, SignInFallback));
      case Normal(payload) =>
        var token := ExtractToken(payload);
        if token.None? || token.value == "" {
          form.error := Some(NoTokenMessage);
        } else {
          form.signedIn := token;
          match refresh {
            case Abrupt(thrown) =>
              form.error := Some(MessageOf(thrown, SignInFallback));
            case Normal(_) =>
              form.location := Some("/");
          }
        }
    }
    form.loading := false;
  }

  /**
   * Register's onSubmit as written: with a token it signs in and then, like
   * Login, fails on the missing clearCacheAndRefresh and stays put; without a
   * token it goes to "/login" and shows no error.
   */
  method RegisterSubmit(form: FormState, email: string, password: string, response: Completion<Json>, missingCallMessage: string)
    modifies form
    ensures !form.loading && form.sent == Some((Trim(email), password))
    ensures response.Abrupt? ==>
      form.error == Some(MessageOf(response.thrown, SignUpFallback)) && form.signedIn == old(form.signedIn) && form.location == old(form.location)
    ensures response.Normal? && !HasToken(response.value) ==>
      form.error == None && form.signedIn == old(form.signedIn) && form.location == Some("/login")
    ensures response.Normal? && HasToken(response.value) ==>
      form.signedIn == ExtractToken(response.value) && form.error == Some(missingCallMessage) && form.location == old(form.location)
  {
    form.error := None;
    form.loading := true;
    form.sent := Some((Trim(email), password));
    match response {
      case Abrupt(thrown) =>
        form.error := Some(MessageOf(thrown, SignUpFallback));
      case Normal(payload) =>
        var token := ExtractToken(payload);
        if token.Some? && token.value != "" {
          form.signedIn := token;
          form.error := Some(missingCallMessage);
        } else {
          form.location := Some("/login");
        }
    }
    form.loading := false;
  }

  /** Register's onSubmit as evidently intended: with a token, sign in, refresh the chat state, go to "/". */
  method RegisterSubmitWithRefresh(form: FormState, email: string, password: string, response: Completion<Json>, refresh: Completion<()>)
    modifies form
    ensures !form.loading && form.sent == Some((Trim(email), password))
    ensures response.Abrupt? ==>
      form.error == Some(MessageOf(response.thrown, SignUpFallback)) && form.signedIn == old(form.signedIn) && form.location == old(form.location)
    ensures response.Normal? && !HasToken(response.value) ==>
      form.error == None && form.signedIn == old(form.signedIn) && form.location == Some("/login")
    ensures response.Normal? && HasToken(response.value) ==> form.signedIn == ExtractToken(response.value)
    ensures response.Normal? && HasToken(response.value) && refresh.Normal? ==> form.error == None && form.location == Some("/")
    ensures response.Normal? && HasToken(response.value) && refresh.Abrupt? ==>
      form.error == Some(MessageOf(refresh.thrown, SignUpFallback)) && form.location == old(form.location)
  {
    form.error := None;
    form.loading := true;
    form.sent := Some((Trim(email), password));
    match response {
      case Abrupt(thrown) =>
        form.error := Some(MessageOf(thrown, SignUpFallback));
      case Normal(payload) =>
        var token := ExtractToken(payload);
        if token.Some? && token.value != "" {
          form.signedIn := token;
          match refresh {
            case Abrupt(thrown) =>
              form.error := Some(MessageOf(thrown, SignUpFallback));
            case Normal(_) =>
              form.location := Some("/");
          }
        } else {
          form.location := Some("/login");
        }
    }
    form.loading := false;
  }

  /** The answer a successful sign-in or sign-up gets: `{"access_token": "abc"}`. */
  function TokenAnswer(): Json {
    JObject(map["access_token" := JString("abc")])
  }

  /** As written, a sign-in that the server accepts with a token never reaches "/". */
  method SignInStaysOnLogin(missingCallMessage: string) returns (location: Option<string>, error: Option<string>)
    ensures location == None && error == Some(missingCallMessage)
  {
    var form := new FormState();
    assert HasToken(TokenAnswer());
    LoginSubmit(form, "user@example.com", "secret", Normal(TokenAnswer()), missingCallMessage);
    location, error := form.location, form.error;
  }

  /** As written, a sign-up that the server answers with a token never reaches "/". */
  method SignUpStaysOnRegister(missingCallMessage: string) returns (location: Option<string>, error: Option<string>)
    ensures location == None && error == Some(missingCallMessage)
  {
    var form := new FormState();
    assert HasToken(TokenAnswer());
    RegisterSubmit(form, "user@example.com", "secret", Normal(TokenAnswer()), missingCallMessage);
    location, error := form.location, form.error;
  }
}
