/**
 * The forgot-password form: email, captcha, email code and the new
 * password with its repeat, the same resend countdown as the register form,
 * and the submit step that calls `forgotPassword`.
 */
module ForgotPasswordForm {
  import opened Wrappers
  import opened ClientTypes
  import opened EmailCode
  import LocalStorage
  import Layout = LayoutStore

  function InitialValues(): Fields
  {
    map["email" := "", "verification_code" := "", "new_password" := ""]
  }

  /**
   * The field rules `validateFields` enforces: a well-formed email (judged
   * by the form library, entering as `emailOk`), six-character captcha and
   * email codes, and a new password of 8 to 20 characters.
   */
  predicate RulesHold(f: Fields, emailOk: bool)
  {
    && Get(f, "email") != "" && emailOk
    && SixLong(Get(f, "captcha"))
    && SixLong(Get(f, "verification_code"))
    && PasswordRule(Get(f, "new_password"))
  }

  /** The flags a successful reset lowers. */
  function CloseModals(): map<Layout.Flag, bool>
  {
    map[Layout.ForgotPasswordVisible := false, Layout.PopoverVisible := false]
  }

  class Form {
    var values: Fields
    var emailRequest: Fields
    var repeatPassword: string
    var picPath: string
    var timer: Countdown
    const layout: Layout.Store

    predicate Valid()
      reads this
    {
      Consistent(timer)
    }

    /** The red "passwords differ" hint under the repeat box. */
    predicate ShowsMismatch()
      reads this
    {
      Get(values, "new_password") != repeatPassword
    }

    constructor (layout: Layout.Store)
      ensures Valid() && this.layout == layout
      ensures values == InitialValues() && emailRequest == InitialEmailRequest()
      ensures repeatPassword == "" && picPath == "" && timer == Idle()
    {
      values := InitialValues();
      emailRequest := InitialEmailRequest();
      repeatPassword := "";
      picPath := "";
      timer := Idle();
      this.layout := layout;
    }

    /** `emailVerify`: a fulfilled captcha reply sets the picture and the captcha id, whatever its code. */
    method RefreshCaptcha(reply: Settled<Envelope<CaptchaData>>)
      requires Valid()
      modifies this
      ensures Valid() && values == old(values) && repeatPassword == old(repeatPassword) && timer == old(timer)
      ensures reply.Fulfilled? ==>
        picPath == reply.value.data.picPath
        && emailRequest == old(emailRequest)["captcha_id" := reply.value.data.captchaId]
      ensures reply.Rejected? ==> picPath == old(picPath) && emailRequest == old(emailRequest)
    {
      if reply.Fulfilled? {
        picPath := reply.value.data.picPath;
        emailRequest := emailRequest["captcha_id" := reply.value.data.captchaId];
      }
    }

    /**
     * `sendCode`: nothing while counting. Otherwise the request held before
     * the call is sent and the form's email is copied in for later calls; a
     * code-0 reply starts the countdown, any other code asks for a new captcha.
     */
    method SendCode(reply: Settled<Envelope<()>>) returns (sent: Option<Fields>, refresh: bool)
      requires Valid()
      modifies this
      ensures Valid() && values == old(values) && repeatPassword == old(repeatPassword) && picPath == old(picPath)
      ensures old(timer.isCounting) ==> sent == None && !refresh && emailRequest == old(emailRequest) && timer == old(timer)
      ensures !old(timer.isCounting) ==>
        && sent == Some(old(emailRequest))
        && emailRequest == old(emailRequest)["email" := Get(old(values), "email")]
        && (timer == if reply.Fulfilled? && reply.value.code == 0 then Started() else old(timer))
        && (refresh <==> reply.Fulfilled? && reply.value.code != 0)
    {
      if timer.isCounting {
        return None, false;
      }
      sent := Some(emailRequest);
      emailRequest := emailRequest["email" := Get(values, "email")];
      refresh := false;
      if reply.Fulfilled? {
        if reply.value.code == 0 {
          timer := Started();
        } else {
          refresh := true;
        }
      }
    }

    /** One firing of the countdown effect's one-second timer. */
    method Tick()
      requires Valid()
      modifies this
      ensures Valid() && timer == EmailCode.Tick(old(timer))
      ensures values == old(values) && emailRequest == old(emailRequest) && repeatPassword == old(repeatPassword)
    {
      timer := EmailCode.Tick(timer);
    }

    /** `onValuesChange`: the changed values go into both objects; a new password clears the repeat box. */
    method OnValuesChange(changed: Fields)
      requires Valid()
      modifies this
      ensures Valid() && timer == old(timer) && picPath == old(picPath)
      ensures values == Spread(old(values), changed) && emailRequest == Spread(old(emailRequest), changed)
      ensures repeatPassword == if Truthy(changed, "new_password") then "" else old(repeatPassword)
    {
      values := Spread(values, changed);
      emailRequest := Spread(emailRequest, changed);
      if Truthy(changed, "new_password") {
        repeatPassword := "";
      }
    }

    method SetRepeatPassword(v: string)
      modifies this
      ensures repeatPassword == v && values == old(values) && emailRequest == old(emailRequest) && timer == old(timer)
    {
      repeatPassword := v;
    }

    /**
     * `submitForm`: values that break a rule, or differing passwords, send
     * nothing. Otherwise `forgotPassword` gets the values, and a code-0
     * reply closes the forgot-password and popover modals.
     */
    method SubmitForm(emailOk: bool, reply: Settled<Envelope<()>>) returns (sent: Option<Fields>)
      requires Valid() && layout.Valid()
      modifies layout, layout.storage
      ensures Valid() && layout.Valid()
      ensures sent.Some? <==> RulesHold(values, emailOk) && Get(values, "new_password") == repeatPassword
      ensures sent.Some? ==> sent.value == values
      ensures sent.Some? && reply.Fulfilled? && reply.value.code == 0 ==>
        && layout.flags == Layout.Merge(old(layout.flags), CloseModals())
        && layout.storage.items == old(layout.storage.items)[Layout.StorageName := LocalStorage.LayoutBlob(layout.flags[Layout.IsCollapse])]
      ensures !(sent.Some? && reply.Fulfilled? && reply.value.code == 0) ==>
        layout.flags == old(layout.flags) && layout.storage.items == old(layout.storage.items)
    {
      if !RulesHold(values, emailOk) || Get(values, "new_password") != repeatPassword {
        return None;
      }
      sent := Some(values);
      if reply.Fulfilled? && reply.value.code == 0 {
        layout.SetState(CloseModals());
      }
    }
  }
}
