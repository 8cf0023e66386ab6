/**
 * What the register and forgot-password forms share: the 60-second resend
 * countdown, the spread-merge of changed form values, and the field rules.
 */
module EmailCode {
  import opened ClientTypes

  /** Form values by field name, as the form's plain objects hold them. */
  type Fields = map<string, string>

  /** The seconds left before another code may be sent, and the `isCounting` flag. */
  datatype Countdown = Countdown(seconds: nat, isCounting: bool)

  const ResendSeconds: nat := 60

  function Idle(): Countdown
  {
    Countdown(0, false)
  }

  /** The state a code-0 send starts. */
  function Started(): Countdown
  {
    Countdown(ResendSeconds, true)
  }

  /** The flag is up exactly while seconds remain, and never more than a full period remains. */
  predicate Consistent(c: Countdown)
  {
    (c.isCounting <==> c.seconds > 0) && c.seconds <= ResendSeconds
  }

  /**
   * One second of the countdown effect: a positive count goes down by one,
   * and the effect that sees 0 lowers the flag.
   */
  function Tick(c: Countdown): (d: Countdown)
    ensures d.seconds == if c.seconds > 0 then c.seconds - 1 else 0
    ensures d.seconds == 0 ==> !d.isCounting
    ensures Consistent(c) ==> Consistent(d)
  {
    if c.seconds > 0 then
      var s := c.seconds - 1;
      Countdown(s, if s == 0 then false else c.isCounting)
    else
      c.(isCounting := false)
  }

  function Ticks(c: Countdown, k: nat): Countdown
    decreases k
  {
    if k == 0 then c else Ticks(Tick(c), k - 1)
  }

  /** From a consistent state, `k` seconds leave `seconds - k` on the clock, or the idle state. */
  lemma {:induction false} TicksCount(c: Countdown, k: nat)
    requires Consistent(c)
    ensures Ticks(c, k) == if k < c.seconds then Countdown(c.seconds - k, true) else Idle()
    decreases k
  {
    if k > 0 {
      TicksCount(Tick(c), k - 1);
    }
  }

  /** A new code can be asked for exactly sixty seconds after a successful send. */
  lemma ResendAfterSixty(k: nat)
    ensures Ticks(Started(), k).isCounting <==> k < ResendSeconds
  {
    TicksCount(Started(), k);
  }

  /** `{...prev, ...changed}`: changed keys take the new value, the others keep theirs. */
  function Spread(prev: Fields, changed: Fields): (r: Fields)
    ensures r.Keys == prev.Keys + changed.Keys
    ensures forall k :: k in changed ==> r[k] == changed[k]
    ensures forall k :: k in prev && k !in changed ==> r[k] == prev[k]
  {
    prev + changed
  }

  /** The value of a field, with a missing one read as the empty string. */
  function Get(f: Fields, key: string): string
  {
    if key in f then f[key] else ""
  }

  /** `if (changedValues[key])`: present and non-empty. */
  predicate Truthy(changed: Fields, key: string)
  {
    key in changed && changed[key] != ""
  }

  /** A `required` rule with `min`/`max` length bounds. */
  predicate LengthBetween(s: string, lo: nat, hi: nat)
  {
    s != "" && lo <= |s| <= hi
  }

  /** `required` with `len: 6`. */
  predicate SixLong(s: string)
  {
    |s| == 6
  }

  predicate PasswordRule(s: string)
  {
    LengthBetween(s, 8, 20)
  }

  /** The body `emailVerify` reads from the captcha reply. */
  datatype CaptchaData = CaptchaData(picPath: string, captchaId: string)

  /** The request object `sendEmailVerificationCode` receives when the form opens. */
  function InitialEmailRequest(): Fields
  {
    map["email" := "", "captcha" := "", "captcha_id" := ""]
  }
}
