/**
 * The home page's typewriter title: it types the greeting one character at
 * a time, pauses, deletes it one character at a time, and starts over.
 */
module Hero {
  const FullText: string := "欢迎来到我的网站"

  /** `(displayText, index, isDeleting)`. */
  datatype Typing = Typing(displayText: string, index: nat, isDeleting: bool)

  function Initial(): Typing
  {
    Typing("", 0, false)
  }

  /** The shown text is always the first `index` characters of the greeting. */
  predicate Consistent(t: Typing)
  {
    t.index <= |FullText| && t.displayText == FullText[..t.index]
  }

  /**
   * What the effect does next for a state: type one more character, switch
   * to deleting at full length, delete one character, or switch back to
   * typing at length 0.
   */
  function Next(t: Typing): (u: Typing)
    requires t.index <= |FullText|
    ensures u.index <= |FullText|
    ensures Consistent(t) ==> Consistent(u)
    ensures !t.isDeleting && t.index < |FullText| ==> u.index == t.index + 1 && !u.isDeleting
    ensures !t.isDeleting && t.index == |FullText| ==> u == t.(isDeleting := true)
    ensures t.isDeleting && t.index > 0 ==> u.index == t.index - 1 && u.isDeleting
    ensures t.isDeleting && t.index == 0 ==> u == t.(isDeleting := false)
  {
    if !t.isDeleting && t.index < |FullText| then
      Typing(FullText[..t.index + 1], t.index + 1, false)
    else if !t.isDeleting && t.index == |FullText| then
      t.(isDeleting := true)
    else if t.isDeleting && t.index > 0 then
      Typing(FullText[..t.index - 1], t.index - 1, true)
    else if t.isDeleting && t.index == 0 then
      t.(isDeleting := false)
    else
      t
  }

  function Steps(t: Typing, k: nat): Typing
    requires t.index <= |FullText|
    decreases k
  {
    if k == 0 then t else Steps(Next(t), k - 1)
  }

  lemma {:induction false} TypingRun(i: nat, k: nat)
    requires i + k <= |FullText|
    ensures Steps(Typing(FullText[..i], i, false), k) == Typing(FullText[..i + k], i + k, false)
    decreases k
  {
    if k > 0 {
      TypingRun(i + 1, k - 1);
    }
  }

  lemma {:induction false} DeletingRun(i: nat, k: nat)
    requires k <= i <= |FullText|
    ensures Steps(Typing(FullText[..i], i, true), k) == Typing(FullText[..i - k], i - k, true)
    decreases k
  {
    if k > 0 {
      DeletingRun(i - 1, k - 1);
    }
  }

  lemma {:induction false} StepsAdd(t: Typing, a: nat, b: nat)
    requires t.index <= |FullText|
    ensures Steps(t, a).index <= |FullText|
    ensures Steps(t, a + b) == Steps(Steps(t, a), b)
    decreases a
  {
    if a > 0 {
      StepsAdd(Next(t), a - 1, b);
    }
  }

  /**
   * One full cycle is |greeting| typing steps, one switch, |greeting|
   * deleting steps and one switch back, and it ends where it began.
   */
  lemma FullCycle()
    ensures Steps(Initial(), 2 * |FullText| + 2) == Initial()
  {
    var n := |FullText|;
    TypingRun(0, n);
    var full := Typing(FullText[..n], n, false);
    assert Steps(Initial(), n) == full;
    StepsAdd(Initial(), n, 1);
    assert Steps(full, 1) == Typing(FullText[..n], n, true);
    DeletingRun(n, n);
    StepsAdd(Initial(), n + 1, n);
    StepsAdd(Initial(), 2 * n + 1, 1);
  }

  class Typewriter {
    var displayText: string
    var index: nat
    var isDeleting: bool

    function State(): Typing
      reads this
    {
      Typing(displayText, index, isDeleting)
    }

    predicate Valid()
      reads this
    {
      Consistent(State())
    }

    constructor ()
      ensures Valid() && State() == Initial()
    {
      displayText, index, isDeleting := "", 0, false;
    }

    /** One run of the effect once its timer (200 ms, 3 s or 100 ms) has fired. */
    method Step()
      requires Valid()
      modifies this
      ensures Valid() && State() == Next(old(State()))
    {
      if !isDeleting && index < |FullText| {
        displayText := FullText[..index + 1];
        index := index + 1;
      } else if !isDeleting && index == |FullText| {
        isDeleting := true;
      } else if isDeleting && index > 0 {
        displayText := FullText[..index - 1];
        index := index - 1;
      } else if isDeleting && index == 0 {
        isDeleting := false;
      }
    }
  }
}
