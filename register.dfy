/** The sign-up page: the six form fields, the per-field error messages, the send-code
    button with its countdown, and the validation run on submit. */
module Register {
  import opened Wrappers
  import JsObject
  import Seqs
  import opened Catalogue
  import opened Forms

  /** The form's contents (`formData`). */
  datatype RegisterData = RegisterData(
    username: string, email: string, phone: string, code: string,
    password: string, confirmPassword: string)

  /** The inputs of the form, each under its `name` attribute. */
  datatype RegisterField = Username | Email | Phone | Code | Password | ConfirmPassword
  {
    function Key(): string
    {
      match this
      case Username => "username"
      case Email => "email"
      case Phone => "phone"
      case Code => "code"
      case Password => "password"
      case ConfirmPassword => "confirmPassword"
    }
  }

  /** `{ ...prev, [name]: value }`. */
  function SetField(d: RegisterData, f: RegisterField, value: string): RegisterData
  {
    match f
    case Username => d.(username := value)
    case Email => d.(email := value)
    case Phone => d.(phone := value)
    case Code => d.(code := value)
    case Password => d.(password := value)
    case ConfirmPassword => d.(confirmPassword := value)
  }

  function Value(d: RegisterData, f: RegisterField): string
  {
    match f
    case Username => d.username
    case Email => d.email
    case Phone => d.phone
    case Code => d.code
    case Password => d.password
    case ConfirmPassword => d.confirmPassword
  }

  /** Setting a field changes that field and no other. */
  lemma SetFieldSpec(d: RegisterData, f: RegisterField, value: string)
    ensures Value(SetField(d, f, value), f) == value
    ensures forall g :: g != f ==> Value(SetField(d, f, value), g) == Value(d, g)
  {
  }

  const PhoneMissing: string := "请输入手机号码"
  const PhoneInvalid: string := "请输入有效的11位手机号码"

  /** `handleChange`'s error update: a field that shows an error loses its entry, key
      and all, the other keys keeping their order; a field without one leaves the
      errors as they are. */
  function ClearError(errors: Errors, key: string): (r: Errors)
    ensures !Truthy(JsObject.Get(r, key))
    ensures forall k :: k != key ==> JsObject.Get(r, k) == JsObject.Get(errors, k)
    ensures Truthy(JsObject.Get(errors, key)) ==>
              key !in r.keys && r.keys == Seqs.Filter(errors.keys, (x: string) => x != key)
    ensures !Truthy(JsObject.Get(errors, key)) ==> r == errors
  {
    if Truthy(JsObject.Get(errors, key)) then JsObject.Delete(errors, key) else errors
  }

  /** Which of the six rules of `validate` fail, in the order it checks them. */
  datatype Failures = Failures(username: bool, email: bool, phone: bool, code: bool, password: bool, confirm: bool)

  function FailuresOf(d: RegisterData): Failures
  {
    Failures(|d.username| < 2, !IsEmail(d.email), !IsPhone(d.phone), |d.code| < 4,
             |d.password| < 6, d.password != d.confirmPassword)
  }

  /** The error map built from the failing rules, rule by rule. */
  function ErrorsFor(f: Failures): Errors
  {
    ErrorsUpTo(f, 6)
  }

  /** The errors `validate` records for a form. */
  function ValidationErrors(d: RegisterData): Errors
  {
    ErrorsFor(FailuresOf(d))
  }

  /** The fields `validate` checks, in order, and the message each gets. */
  const RuleKeys: seq<string> := ["username", "email", "phone", "code", "password", "confirmPassword"]
  const RuleMessages: seq<string> := ["用户名至少2个字符", "请输入有效的电子邮箱", PhoneInvalid, "请输入验证码", "密码至少6位", "两次输入的密码不一致"]

  lemma RuleKeysDistinct()
    ensures Seqs.Distinct(RuleKeys)
  {
  }

  /** Whether the `i`-th rule (counting from 1) fails. */
  function Fails(f: Failures, i: nat): bool
  {
    match i
    case 1 => f.username
    case 2 => f.email
    case 3 => f.phone
    case 4 => f.code
    case 5 => f.password
    case _ => f.confirm
  }

  /** The map after the first `n` rules have been checked. */
  function ErrorsUpTo(f: Failures, n: nat): Errors
    requires n <= 6
  {
    if n == 0 then JsObject.Empty()
    else PutIf(ErrorsUpTo(f, n - 1), Fails(f, n), RuleKeys[n - 1], RuleMessages[n - 1])
  }

  /** The number of rules among the first `n` that fail. */
  function FailCount(f: Failures, n: nat): nat
  {
    if n == 0 then 0 else FailCount(f, n - 1) + (if Fails(f, n) then 1 else 0)
  }

  /** After the first `n` rules the map holds an entry for each of them that failed
      and for nothing else. */
  lemma {:induction false} ErrorsUpToSpec(f: Failures, n: nat)
    requires n <= 6
    ensures forall j :: 0 <= j < 6 ==> (JsObject.Get(ErrorsUpTo(f, n), RuleKeys[j]).Some? <==> j < n && Fails(f, j + 1))
    ensures forall k :: k !in RuleKeys ==> JsObject.Get(ErrorsUpTo(f, n), k).None?
    ensures |ErrorsUpTo(f, n).keys| == FailCount(f, n)
  {
    if n > 0 {
      ErrorsUpToSpec(f, n - 1);
      PutIfSpec(ErrorsUpTo(f, n - 1), Fails(f, n), RuleKeys[n - 1], RuleMessages[n - 1]);
      RuleKeysDistinct();
      var key := RuleKeys[n - 1];
      assert JsObject.Get(ErrorsUpTo(f, n - 1), key).None?;
      forall j | 0 <= j < 6
        ensures JsObject.Get(ErrorsUpTo(f, n), RuleKeys[j]).Some? <==> j < n && Fails(f, j + 1)
      {
        if j != n - 1 {
          assert RuleKeys[j] != key;
        }
      }
    }
  }

  /** A field has an entry exactly when its rule fails, nothing else has one, and the
      map has one key per failing rule. */
  lemma ErrorsForKeys(f: Failures)
    ensures var r := ErrorsFor(f);
            && (JsObject.Get(r, "username").Some? <==> f.username)
            && (JsObject.Get(r, "email").Some? <==> f.email)
            && (JsObject.Get(r, "phone").Some? <==> f.phone)
            && (JsObject.Get(r, "code").Some? <==> f.code)
            && (JsObject.Get(r, "password").Some? <==> f.password)
            && (JsObject.Get(r, "confirmPassword").Some? <==> f.confirm)
            && (forall k :: k !in RuleKeys ==> JsObject.Get(r, k).None?)
            && |r.keys| == FailCount(f, 6)
  {
    ErrorsUpToSpec(f, 6);
    var r := ErrorsFor(f);
    assert JsObject.Get(r, RuleKeys[0]).Some? <==> f.username;
    assert JsObject.Get(r, RuleKeys[1]).Some? <==> f.email;
    assert JsObject.Get(r, RuleKeys[2]).Some? <==> f.phone;
    assert JsObject.Get(r, RuleKeys[3]).Some? <==> f.code;
    assert JsObject.Get(r, RuleKeys[4]).Some? <==> f.password;
    assert JsObject.Get(r, RuleKeys[5]).Some? <==> f.confirm;
  }

  /** The rule table read entry by entry. */
  lemma RuleTable()
    ensures RuleKeys[0] == "username" && RuleKeys[1] == "email" && RuleKeys[2] == "phone"
    ensures RuleKeys[3] == "code" && RuleKeys[4] == "password" && RuleKeys[5] == "confirmPassword"
    ensures RuleMessages[0] == "用户名至少2个字符" && RuleMessages[1] == "请输入有效的电子邮箱"
    ensures RuleMessages[2] == PhoneInvalid && RuleMessages[3] == "请输入验证码"
    ensures RuleMessages[4] == "密码至少6位" && RuleMessages[5] == "两次输入的密码不一致"
  {
  }

  /** The map written out rule by rule in terms of the rule table. */
  lemma ErrorsForChain(f: Failures)
    ensures ErrorsFor(f)
            == PutIf(PutIf(PutIf(PutIf(PutIf(PutIf(JsObject.Empty(),
                 f.username, RuleKeys[0], RuleMessages[0]),
                 f.email, RuleKeys[1], RuleMessages[1]),
                 f.phone, RuleKeys[2], RuleMessages[2]),
                 f.code, RuleKeys[3], RuleMessages[3]),
                 f.password, RuleKeys[4], RuleMessages[4]),
                 f.confirm, RuleKeys[5], RuleMessages[5])
  {
    UpToStep(f, 1);
    UpToStep(f, 2);
    UpToStep(f, 3);
    UpToStep(f, 4);
    UpToStep(f, 5);
    UpToStep(f, 6);
  }

  /** One more rule checked. */
  lemma UpToStep(f: Failures, n: nat)
    requires 1 <= n <= 6
    ensures ErrorsUpTo(f, n) == PutIf(ErrorsUpTo(f, n - 1), Fails(f, n), RuleKeys[n - 1], RuleMessages[n - 1])
  {
  }

  /** The map written out rule by rule, as `validate` builds it. */
  lemma ErrorsForUnfold(f: Failures)
    ensures ErrorsFor(f)
            == PutIf(PutIf(PutIf(PutIf(PutIf(PutIf(JsObject.Empty(),
                 f.username, "username", "用户名至少2个字符"),
                 f.email, "email", "请输入有效的电子邮箱"),
                 f.phone, "phone", PhoneInvalid),
                 f.code, "code", "请输入验证码"),
                 f.password, "password", "密码至少6位"),
                 f.confirm, "confirmPassword", "两次输入的密码不一致")
  {
    ErrorsForChain(f);
    RuleTable();
  }

  lemma FailCountZero(f: Failures)
    ensures FailCount(f, 6) == 0 <==> !f.username && !f.email && !f.phone && !f.code && !f.password && !f.confirm
  {
    assert FailCount(f, 6) == FailCount(f, 5) + (if f.confirm then 1 else 0);
    assert FailCount(f, 5) == FailCount(f, 4) + (if f.password then 1 else 0);
    assert FailCount(f, 4) == FailCount(f, 3) + (if f.code then 1 else 0);
    assert FailCount(f, 3) == FailCount(f, 2) + (if f.phone then 1 else 0);
    assert FailCount(f, 2) == FailCount(f, 1) + (if f.email then 1 else 0);
  }

  /** Each field has an error exactly when its rule fails, no other key is recorded, and
      the form is valid exactly when every rule holds. */
  lemma ValidationErrorsSpec(d: RegisterData)
    ensures var r := ValidationErrors(d);
            && ("username" in r.keys <==> |d.username| < 2)
            && ("email" in r.keys <==> !IsEmail(d.email))
            && ("phone" in r.keys <==> !IsPhone(d.phone))
            && ("code" in r.keys <==> |d.code| < 4)
            && ("password" in r.keys <==> |d.password| < 6)
            && ("confirmPassword" in r.keys <==> d.password != d.confirmPassword)
            && (forall k :: k in r.keys ==> k in RuleKeys)
            && (r.keys == [] <==> && |d.username| >= 2 && IsEmail(d.email) && IsPhone(d.phone)
                                  && |d.code| >= 4 && |d.password| >= 6 && d.password == d.confirmPassword)
  {
    ErrorsForKeys(FailuresOf(d));
    FailCountZero(FailuresOf(d));
  }

  class RegisterPage {
    var form: RegisterData
    var errors: Errors
    var countdown: nat
    /** The confirmation toast, when one is showing. */
    var toast: Option<string>

    constructor()
      ensures form == RegisterData("", "", "", "", "", "") && errors.keys == []
      ensures countdown == 0 && toast == None
    {
      form := RegisterData("", "", "", "", "", "");
      errors := JsObject.Empty();
      countdown := 0;
      toast := None;
    }

    /** `handleChange`: the field takes the typed value, and its error, if it shows
        one, is removed. */
    method HandleChange(f: RegisterField, value: string)
      modifies this
      ensures form == SetField(old(form), f, value)
      ensures errors == ClearError(old(errors), f.Key())
      ensures countdown == old(countdown) && toast == old(toast)
    {
      form := SetField(form, f, value);
      if Truthy(JsObject.Get(errors, f.Key())) {
        errors := JsObject.Delete(errors, f.Key());
      }
    }

    /** `handleSendCode`: ignored while counting down; a missing or malformed number
        records the phone error and sends nothing; otherwise the countdown starts. */
    method HandleSendCode()
      modifies this
      ensures old(countdown) > 0 ==> form == old(form) && errors == old(errors) && countdown == old(countdown) && toast == old(toast)
      ensures old(countdown) == 0 && form.phone == "" ==>
                errors == JsObject.Put(old(errors), "phone", PhoneMissing) && countdown == 0 && toast == old(toast)
      ensures old(countdown) == 0 && form.phone != "" && !IsPhone(form.phone) ==>
                errors == JsObject.Put(old(errors), "phone", PhoneInvalid) && countdown == 0 && toast == old(toast)
      ensures old(countdown) == 0 && IsPhone(form.phone) ==>
                errors == old(errors) && countdown == ResendSeconds && toast == Some("验证码已发送至 " + form.phone)
      ensures form == old(form)
    {
      if countdown > 0 {
        return;
      }
      if form.phone == "" {
        errors := JsObject.Put(errors, "phone", PhoneMissing);
        return;
      }
      if !IsPhone(form.phone) {
        errors := JsObject.Put(errors, "phone", PhoneInvalid);
        return;
      }
      countdown := ResendSeconds;
      toast := Some("验证码已发送至 " + form.phone);
    }

    /** `if (fails) newErrors[key] = msg`. */
    static method Record(e: Errors, fails: bool, key: string, msg: string) returns (r: Errors)
      ensures r == PutIf(e, fails, key, msg)
    {
      r := e;
      if fails {
        r := JsObject.Put(r, key, msg);
      }
    }

    /** `validate`: the rules are checked in turn into a fresh error map, which replaces
        the shown errors; the form is valid when the map has no key. */
    method Validate() returns (ok: bool)
      modifies this
      ensures errors == ValidationErrors(form)
      ensures ok <==> errors.keys == []
      ensures form == old(form) && countdown == old(countdown) && toast == old(toast)
    {
      var d := form;
      ghost var f := FailuresOf(d);
      var newErrors: Errors := JsObject.Empty();
      newErrors := Record(newErrors, |d.username| < 2, "username", "用户名至少2个字符");
      newErrors := Record(newErrors, !IsEmail(d.email), "email", "请输入有效的电子邮箱");
      newErrors := Record(newErrors, !IsPhone(d.phone), "phone", PhoneInvalid);
      newErrors := Record(newErrors, |d.code| < 4, "code", "请输入验证码");
      newErrors := Record(newErrors, |d.password| < 6, "password", "密码至少6位");
      newErrors := Record(newErrors, d.password != d.confirmPassword, "confirmPassword", "两次输入的密码不一致");
      ErrorsForUnfold(f);
      errors := newErrors;
      ok := |newErrors.keys| == 0;
    }

    /** One second of the countdown effect. */
    method Tick()
      modifies this
      ensures countdown == Forms.Tick(old(countdown))
      ensures countdown == if old(countdown) > 0 then old(countdown) - 1 else 0
      ensures form == old(form) && errors == old(errors) && toast == old(toast)
    {
      if countdown > 0 {
        countdown := countdown - 1;
      }
    }
  }
}
