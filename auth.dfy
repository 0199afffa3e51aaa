/** The sign-in page: password or phone-code login, the per-field errors, the send-code
    button with its countdown, and the login flag written on a successful submit. */
module Auth {
  import opened Wrappers
  import JsObject
  import opened Catalogue
  import opened Forms

  datatype LoginMethod = PasswordLogin | PhoneLogin

  /** The form's contents (`formData`). */
  datatype AuthData = AuthData(email: string, password: string, phone: string, code: string)

  /** The inputs of the form, each under its `name` attribute. */
  datatype AuthField = Email | Password | Phone | Code
  {
    function Key(): string
    {
      match this
      case Email => "email"
      case Password => "password"
      case Phone => "phone"
      case Code => "code"
    }
  }

  /** `{ ...prev, [name]: value }`. */
  function SetField(d: AuthData, f: AuthField, value: string): (r: AuthData)
    ensures f == Email ==> r == AuthData(value, d.password, d.phone, d.code)
    ensures f == Password ==> r == AuthData(d.email, value, d.phone, d.code)
    ensures f == Phone ==> r == AuthData(d.email, d.password, value, d.code)
    ensures f == Code ==> r == AuthData(d.email, d.password, d.phone, value)
  {
    match f
    case Email => d.(email := value)
    case Password => d.(password := value)
    case Phone => d.(phone := value)
    case Code => d.(code := value)
  }

  const PhoneMissing: string := "请输入手机号码"
  /** The message of the send-code check. */
  const PhoneInvalid: string := "请输入有效的11位手机号码"
  /** The message of the login check, worded differently from the send-code one. */
  const PhoneMalformed: string := "手机号格式不正确"
  const CodeMissing: string := "请输入验证码"

  /** The errors `handleLogin` records for the chosen method. */
  function LoginErrors(m: LoginMethod, d: AuthData): Errors
  {
    match m
    case PasswordLogin =>
      PutIf(PutIf(JsObject.Empty(), d.email == "", "email", "请输入电子邮箱"), d.password == "", "password", "请输入密码")
    case PhoneLogin =>
      var e := if d.phone == "" then JsObject.Put(JsObject.Empty(), "phone", PhoneMissing)
               else PutIf(JsObject.Empty(), !IsPhone(d.phone), "phone", PhoneMalformed);
      PutIf(e, d.code == "", "code", CodeMissing)
  }

  /** With a password, exactly the empty ones of e-mail and password are reported and
      nothing else; the login goes ahead exactly when both are filled in. */
  lemma PasswordLoginErrors(d: AuthData)
    ensures var r := LoginErrors(PasswordLogin, d);
            && (JsObject.Get(r, "email").Some? <==> d.email == "")
            && (JsObject.Get(r, "password").Some? <==> d.password == "")
            && (forall k :: k != "email" && k != "password" ==> JsObject.Get(r, k).None?)
            && (r.keys == [] <==> d.email != "" && d.password != "")
  {
    var e := PutIf(JsObject.Empty(), d.email == "", "email", "请输入电子邮箱");
    PutIfSpec(JsObject.Empty(), d.email == "", "email", "请输入电子邮箱");
    PutIfSpec(e, d.password == "", "password", "请输入密码");
  }

  /** With a phone, a missing or a malformed number is reported under its own message,
      and a missing code, and nothing else; the login goes ahead exactly when the number
      is well formed and a code is given. */
  lemma PhoneLoginErrors(d: AuthData)
    ensures var r := LoginErrors(PhoneLogin, d);
            && (d.phone == "" ==> JsObject.Get(r, "phone") == Some(PhoneMissing))
            && (d.phone != "" && !IsPhone(d.phone) ==> JsObject.Get(r, "phone") == Some(PhoneMalformed))
            && (IsPhone(d.phone) ==> JsObject.Get(r, "phone").None?)
            && (JsObject.Get(r, "code").Some? <==> d.code == "")
            && (forall k :: k != "phone" && k != "code" ==> JsObject.Get(r, k).None?)
            && (r.keys == [] <==> IsPhone(d.phone) && d.code != "")
  {
    var e := if d.phone == "" then JsObject.Put(JsObject.Empty(), "phone", PhoneMissing)
             else PutIf(JsObject.Empty(), !IsPhone(d.phone), "phone", PhoneMalformed);
    PutIfSpec(JsObject.Empty(), !IsPhone(d.phone), "phone", PhoneMalformed);
    PutIfSpec(e, d.code == "", "code", CodeMissing);
    assert d.phone == "" ==> !IsPhone(d.phone);
  }

  /** `handleInputChange`'s error update: a field that shows an error keeps its key
      with an empty message. */
  function BlankError(errors: Errors, key: string): (r: Errors)
    ensures !Truthy(JsObject.Get(r, key))
    ensures JsObject.Get(errors, key).Some? <==> JsObject.Get(r, key).Some?
    ensures forall k :: k != key ==> JsObject.Get(r, k) == JsObject.Get(errors, k)
    ensures r.keys == errors.keys
  {
    if Truthy(JsObject.Get(errors, key)) then JsObject.Put(errors, key, "") else errors
  }

  /** `validatePhone`'s error update for a phone number. */
  function PhoneCheckErrors(errors: Errors, phone: string): (r: Errors)
    ensures IsPhone(phone) ==> r == errors
    ensures !IsPhone(phone) ==> JsObject.Get(r, "phone") == Some(if phone == "" then PhoneMissing else PhoneInvalid)
    ensures forall k :: k != "phone" ==> JsObject.Get(r, k) == JsObject.Get(errors, k)
  {
    if phone == "" then JsObject.Put(errors, "phone", PhoneMissing)
    else if !IsPhone(phone) then JsObject.Put(errors, "phone", PhoneInvalid)
    else errors
  }

  class AuthPage {
    var loginMethod: LoginMethod
    var form: AuthData
    var errors: Errors
    var countdown: nat
    /** The confirmation toast, when one is showing. */
    var toast: Option<string>
    /** The `isLoggedIn` flag kept in local storage. */
    var loggedIn: bool

    constructor(loggedIn: bool)
      ensures loginMethod == PasswordLogin && form == AuthData("", "", "", "") && errors.keys == []
      ensures countdown == 0 && toast == None && this.loggedIn == loggedIn
    {
      loginMethod := PasswordLogin;
      form := AuthData("", "", "", "");
      errors := JsObject.Empty();
      countdown := 0;
      toast := None;
      this.loggedIn := loggedIn;
    }

    /** `handleInputChange`: the field takes the typed value, and its error message,
        if it shows one, is blanked. */
    method HandleInputChange(f: AuthField, value: string)
      modifies this
      ensures form == SetField(old(form), f, value)
      ensures errors == BlankError(old(errors), f.Key())
      ensures loginMethod == old(loginMethod) && countdown == old(countdown)
      ensures toast == old(toast) && loggedIn == old(loggedIn)
    {
      form := SetField(form, f, value);
      if Truthy(JsObject.Get(errors, f.Key())) {
        errors := JsObject.Put(errors, f.Key(), "");
      }
    }

    /** `validatePhone`: a missing or malformed number records its message and fails. */
    method ValidatePhone() returns (ok: bool)
      modifies this
      ensures ok <==> IsPhone(form.phone)
      ensures errors == PhoneCheckErrors(old(errors), form.phone)
      ensures form == old(form) && loginMethod == old(loginMethod) && countdown == old(countdown)
      ensures toast == old(toast) && loggedIn == old(loggedIn)
    {
      var phone := form.phone;
      if phone == "" {
        errors := JsObject.Put(errors, "phone", PhoneMissing);
        return false;
      }
      if !IsPhone(phone) {
        errors := JsObject.Put(errors, "phone", PhoneInvalid);
        return false;
      }
      return true;
    }

    /** `handleSendCode`: ignored while counting down; starts the countdown only when the
        number passes `validatePhone`. */
    method HandleSendCode()
      modifies this
      ensures old(countdown) > 0 ==> errors == old(errors) && countdown == old(countdown) && toast == old(toast)
      ensures old(countdown) == 0 ==> errors == PhoneCheckErrors(old(errors), form.phone)
      ensures old(countdown) == 0 && !IsPhone(form.phone) ==> countdown == 0 && toast == old(toast)
      ensures old(countdown) == 0 && IsPhone(form.phone) ==>
                countdown == ResendSeconds && toast == Some("验证码已发送至 " + form.phone)
      ensures form == old(form) && loginMethod == old(loginMethod) && loggedIn == old(loggedIn)
    {
      if countdown > 0 {
        return;
      }
      var ok := ValidatePhone();
      if !ok {
        return;
      }
      countdown := ResendSeconds;
      toast := Some("验证码已发送至 " + form.phone);
    }

    /** `handleLogin`: the checks of the chosen method fill a fresh error map and clear a
        validity flag; the map replaces the shown errors, and the login flag is written
        (and the performance page opened) only when no check failed. */
    method HandleLogin() returns (target: Option<string>)
      modifies this
      ensures errors == LoginErrors(loginMethod, form)
      ensures target.Some? <==> errors.keys == []
      ensures target.Some? ==> target.value == "/performance" && loggedIn
      ensures target.None? ==> loggedIn == old(loggedIn)
      ensures form == old(form) && loginMethod == old(loginMethod) && countdown == old(countdown)
      ensures toast == old(toast)
    {
      PasswordLoginErrors(form);
      PhoneLoginErrors(form);
      var d := form;
      var newErrors: Errors := JsObject.Empty();
      var isValid := true;
      if loginMethod == PasswordLogin {
        if d.email == "" {
          newErrors := JsObject.Put(newErrors, "email", "请输入电子邮箱");
          isValid := false;
        }
        if d.password == "" {
          newErrors := JsObject.Put(newErrors, "password", "请输入密码");
          isValid := false;
        }
      } else {
        if d.phone == "" {
          newErrors := JsObject.Put(newErrors, "phone", PhoneMissing);
          isValid := false;
        } else {
          if !IsPhone(d.phone) {
            newErrors := JsObject.Put(newErrors, "phone", PhoneMalformed);
            isValid := false;
          }
        }
        if d.code == "" {
          newErrors := JsObject.Put(newErrors, "code", CodeMissing);
          isValid := false;
        }
      }
      errors := newErrors;
      if !isValid {
        return None;
      }
      loggedIn := true;
      target := Some("/performance");
    }

    /** `toggleMethod`: switching the login method clears every error. */
    method ToggleMethod(m: LoginMethod)
      modifies this
      ensures loginMethod == m && errors.keys == []
      ensures form == old(form) && countdown == old(countdown) && toast == old(toast) && loggedIn == old(loggedIn)
    {
      loginMethod := m;
      errors := JsObject.Empty();
    }

    /** One second of the countdown effect. */
    method Tick()
      modifies this
      ensures countdown == Forms.Tick(old(countdown))
      ensures loginMethod == old(loginMethod) && form == old(form) && errors == old(errors)
      ensures toast == old(toast) && loggedIn == old(loggedIn)
    {
      if countdown > 0 {
        countdown := countdown - 1;
      }
    }
  }
}
