/**
 * The register form: its values, the repeated password, the captcha and
 * email-code exchange with its resend countdown, and the submit step that
 * hands the values to the user store's `registerIn`.
 */
module RegisterForm {
  import opened Wrappers
  import opened ClientTypes
  import opened EmailCode
  import LocalStorage
  import User = UserStore
  import Layout = LayoutStore

  function InitialValues(): Fields
  {
    map["username" := "", "password" := "", "email" := "", "verification_code" := ""]
  }

  /**
   * The field rules `validateFields` enforces: a username of at most 20
   * characters, a password of 8 to 20, a well-formed email (its format is
   * judged by the form library and enters as `emailOk`), and six-character
   * captcha and email codes.
   */
  predicate RulesHold(f: Fields, emailOk: bool)
  {
    && LengthBetween(Get(f, "username"), 1, 20)
    && PasswordRule(Get(f, "password"))
    && Get(f, "email") != "" && emailOk
    && SixLong(Get(f, "captcha"))
    && SixLong(Get(f, "verification_code"))
  }

  /** The flags a successful registration lowers. */
  function CloseModals(): map<Layout.Flag, bool>
  {
    map[Layout.RegisterVisible := false, Layout.PopoverVisible := false]
  }

  class Form {
    var values: Fields
    var emailRequest: Fields
    var repeatPassword: string
    var picPath: string
    var timer: Countdown
    const user: User.Store
    const layout: Layout.Store

    predicate Valid()
      reads this
    {
      Consistent(timer)
    }

    /** The red "passwords differ" hint under the repeat box. */
    predicate ShowsMismatch()
      reads this
    {
      Get(values, "password") != repeatPassword
    }

    constructor (user: User.Store, layout: Layout.Store)
      ensures Valid() && this.user == user && this.layout == layout
      ensures values == InitialValues() && emailRequest == InitialEmailRequest()
      ensures repeatPassword == "" && picPath == "" && timer == Idle()
    {
      values := InitialValues();
      emailRequest := InitialEmailRequest();
      repeatPassword := "";
      picPath := "";
      timer := Idle();
      this.user := user;
      this.layout := layout;
    }

    /** `emailVerify`: a fulfilled captcha reply sets the picture and the captcha id, whatever its code. */
    method RefreshCaptcha(reply: Settled<Envelope<CaptchaData>>)
      requires Valid()
      modifies this
      ensures Valid() && values == old(values) && repeatPassword == old(repeatPassword) && timer == old(timer)
      ensures reply.Fulfilled? ==>
        picPath == reply.value.data.picPath
        && emailRequest == old(emailRequest)["captcha_id" := reply.value.data.captchaId]
      ensures reply.Rejected? ==> picPath == old(picPath) && emailRequest == old(emailRequest)
    {
      if reply.Fulfilled? {
        picPath := reply.value.data.picPath;
        emailRequest := emailRequest["captcha_id" := reply.value.data.captchaId];
      }
    }

    /**
     * `sendCode`: nothing while counting. Otherwise the request held before
     * the call is sent and the form's email is copied in for later calls; a
     * code-0 reply starts the countdown, any other code asks for a new captcha.
     */
    method SendCode(reply: Settled<Envelope<()>>) returns (sent: Option<Fields>, refresh: bool)
      requires Valid()
      modifies this
      ensures Valid() && values == old(values) && repeatPassword == old(repeatPassword) && picPath == old(picPath)
      ensures old(timer.isCounting) ==> sent == None && !refresh && emailRequest == old(emailRequest) && timer == old(timer)
      ensures !old(timer.isCounting) ==>
        && sent == Some(old(emailRequest))
        && emailRequest == old(emailRequest)["email" := Get(old(values), "email")]
        && (timer == if reply.Fulfilled? && reply.value.code == 0 then Started() else old(timer))
        && (refresh <==> reply.Fulfilled? && reply.value.code != 0)
    {
      if timer.isCounting {
        return None, false;
      }
      sent := Some(emailRequest);
      emailRequest := emailRequest["email" := Get(values, "email")];
      refresh := false;
      if reply.Fulfilled? {
        if reply.value.code == 0 {
          timer := Started();
        } else {
          refresh := true;
        }
      }
    }

    /** One firing of the countdown effect's one-second timer. */
    method Tick()
      requires Valid()
      modifies this
      ensures Valid() && timer == EmailCode.Tick(old(timer))
      ensures values == old(values) && emailRequest == old(emailRequest) && repeatPassword == old(repeatPassword)
    {
      timer := EmailCode.Tick(timer);
    }

    /** `onValuesChange`: the changed values go into both objects; a new password clears the repeat box. */
    method OnValuesChange(changed: Fields)
      requires Valid()
      modifies this
      ensures Valid() && timer == old(timer) && picPath == old(picPath)
      ensures values == Spread(old(values), changed) && emailRequest == Spread(old(emailRequest), changed)
      ensures repeatPassword == if Truthy(changed, "password") then "" else old(repeatPassword)
    {
      values := Spread(values, changed);
      emailRequest := Spread(emailRequest, changed);
      if Truthy(changed, "password") {
        repeatPassword := "";
      }
    }

    method SetRepeatPassword(v: string)
      modifies this
      ensures repeatPassword == v && values == old(values) && emailRequest == old(emailRequest) && timer == old(timer)
    {
      repeatPassword := v;
    }

    /**
     * `submitForm`: values that break a rule, or differing passwords, send
     * nothing. Otherwise `registerIn` gets the values, and its `true` closes
     * the register and popover modals.
     */
    method SubmitForm(emailOk: bool, reply: Settled<Envelope<User.AuthData>>) returns (sent: Option<Fields>)
      requires Valid() && layout.Valid() && user.storage == layout.storage
      modifies user, user.storage, layout
      ensures Valid() && layout.Valid()
      ensures sent.Some? <==> RulesHold(values, emailOk) && Get(values, "password") == repeatPassword
      ensures sent.Some? ==> sent.value == values
      ensures values == old(values) && repeatPassword == old(repeatPassword) && timer == old(timer)
      ensures sent.Some? && reply.Fulfilled? && reply.value.code == 0 ==>
        && user.State() == old(user.State()).(userInfo := reply.value.data.user,
                                              accessToken := reply.value.data.accessToken,
                                              isUserLoggedInBefore := true)
        && layout.flags == Layout.Merge(old(layout.flags), CloseModals())
        && layout.storage.items == old(layout.storage.items)
             [User.StorageName := LocalStorage.UserBlob(User.Partialize(user.State()))]
             [Layout.StorageName := LocalStorage.LayoutBlob(layout.flags[Layout.IsCollapse])]
      ensures !(sent.Some? && reply.Fulfilled? && reply.value.code == 0) ==>
        && user.State() == old(user.State()) && layout.flags == old(layout.flags)
        && layout.storage.items == old(layout.storage.items)
    {
      if !RulesHold(values, emailOk) || Get(values, "password") != repeatPassword {
        return None;
      }
      sent := Some(values);
      var ok := user.RegisterIn(reply);
      if ok == Fulfilled(true) {
        layout.SetState(CloseModals());
      }
    }
  }
}
