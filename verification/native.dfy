/** The native calls the engine makes on a window, as events of a trace, and an
    abstract window whose state those events set. */
module Native {
  import opened Versions
  import opened Wrappers

  const DWMWA_USE_IMMERSIVE_DARK_MODE: Dword := 20
  const DWMWA_MICA_EFFECT: Dword := 1029
  const DWMWA_SYSTEMBACKDROP_TYPE: Dword := 38

  const DWMSBT_AUTO: Dword := 0             // the platform default of a fresh window
  const DWMSBT_DISABLE: Dword := 1
  const DWMSBT_MAINWINDOW: Dword := 2       // Mica
  const DWMSBT_TRANSIENTWINDOW: Dword := 3  // Acrylic

  datatype AccentState = AccentDisabled | AccentBlurBehind | AccentAcrylicBlurBehind {
    /** The numeric value of `ACCENT_STATE`. */
    function Code(): Dword {
      match this
      case AccentDisabled => 0
      case AccentBlurBehind => 3
      case AccentAcrylicBlurBehind => 4
    }
  }

  /** The accent policy handed to the composition-attribute setter (attribute 0x13,
      animation id 0). */
  datatype Policy = Policy(state: AccentState, flags: Dword, color: bv32)

  datatype Event =
    | Extend                                  // extend the frame into the whole client area (margins -1)
    | Reset                                   // margins back to 0
    | SetDwmAttr(id: Dword, value: Dword)     // one window attribute
    | SetAccent(policy: Policy)               // the legacy accent policy

  /** What the calls leave behind on a window: whether the frame is extended, the
      window attributes written so far, and the last accent policy. */
  datatype WindowState = WindowState(extended: bool, attrs: map<Dword, Dword>, accent: Option<Policy>)

  /** A window no call has touched. */
  const Fresh: WindowState := WindowState(false, map[], None)

  function Step(w: WindowState, e: Event): WindowState {
    match e
    case Extend => w.(extended := true)
    case Reset => w.(extended := false)
    case SetDwmAttr(id, value) => w.(attrs := w.attrs[id := value])
    case SetAccent(p) => w.(accent := Some(p))
  }

  /** The window after a trace of calls, in order. */
  function Run(w: WindowState, es: seq<Event>): WindowState
    decreases |es|
  {
    if es == [] then w else Run(Step(w, es[0]), es[1..])
  }

  /** The part of a window's state that decides its backdrop effect. An attribute
      never written reads as its platform default: 0 for the Mica attribute, and
      `DWMSBT_AUTO` for the backdrop type. The look counts `DWMSBT_AUTO` and
      `DWMSBT_DISABLE` alike as "no backdrop", and a disabled accent as no accent,
      so a cleared window looks like a fresh one. The theme attributes play no part. */
  datatype Look = Look(extended: bool, backdrop: Dword, mica: Dword, accent: Option<Policy>)

  function LookOf(w: WindowState): Look {
    Look(w.extended,
         NoBackdropAlike(if DWMWA_SYSTEMBACKDROP_TYPE in w.attrs then w.attrs[DWMWA_SYSTEMBACKDROP_TYPE] else DWMSBT_AUTO),
         if DWMWA_MICA_EFFECT in w.attrs then w.attrs[DWMWA_MICA_EFFECT] else 0,
         if w.accent.Some? && w.accent.value.state != AccentDisabled then w.accent else None)
  }

  /** A backdrop type as the look sees it: the default and the disabled type both
      mean that the window has no system backdrop. */
  function NoBackdropAlike(backdrop: Dword): (b: Dword)
    ensures b != DWMSBT_AUTO
    ensures backdrop == DWMSBT_AUTO || backdrop == DWMSBT_DISABLE <==> b == DWMSBT_DISABLE
    ensures backdrop != DWMSBT_AUTO ==> b == backdrop
  {
    if backdrop == DWMSBT_AUTO then DWMSBT_DISABLE else backdrop
  }

  /** How a window with no effect looks. */
  const Neutral: Look := Look(false, DWMSBT_DISABLE, 0, None)

  lemma FreshIsNeutral()
    ensures LookOf(Fresh) == Neutral
  {
  }

  /** A window whose backdrop type was set to its default or to disabled, and
      nothing else, looks like a fresh one. */
  lemma DefaultBackdropIsNeutral(value: Dword)
    requires value == DWMSBT_AUTO || value == DWMSBT_DISABLE
    ensures LookOf(WindowState(false, map[DWMWA_SYSTEMBACKDROP_TYPE := value], None)) == Neutral
    ensures LookOf(Run(Fresh, [SetDwmAttr(DWMWA_SYSTEMBACKDROP_TYPE, value)])) == Neutral
  {
    RunShort(Fresh, SetDwmAttr(DWMWA_SYSTEMBACKDROP_TYPE, value), Reset);
  }

  /** Running two traces one after the other is running their concatenation. */
  lemma {:induction false} RunAppend(w: WindowState, a: seq<Event>, b: seq<Event>)
    ensures Run(w, a + b) == Run(Run(w, a), b)
    decreases |a|
  {
    if a == [] {
      assert a + b == b;
    } else {
      assert (a + b)[0] == a[0];
      assert (a + b)[1..] == a[1..] + b;
      RunAppend(Step(w, a[0]), a[1..], b);
    }
  }

  /** Traces of one and two calls. */
  lemma RunShort(w: WindowState, e1: Event, e2: Event)
    ensures Run(w, [e1]) == Step(w, e1)
    ensures Run(w, [e1, e2]) == Step(Step(w, e1), e2)
  {
    assert [e1][1..] == [];
    assert [e1, e2][1..] == [e2];
    assert Run(w, [e1, e2]) == Run(Step(w, e1), [e2]);
    assert Run(Step(w, e1), [e2]) == Run(Step(Step(w, e1), e2), []);
  }

  /** One call changes the look of two windows that look alike in the same way. */
  lemma StepPreservesLookAlike(w1: WindowState, w2: WindowState, e: Event)
    requires LookOf(w1) == LookOf(w2)
    ensures LookOf(Step(w1, e)) == LookOf(Step(w2, e))
  {
  }

  /** The look after a trace depends only on the look before it. */
  lemma {:induction false} RunPreservesLookAlike(w1: WindowState, w2: WindowState, es: seq<Event>)
    requires LookOf(w1) == LookOf(w2)
    ensures LookOf(Run(w1, es)) == LookOf(Run(w2, es))
    decreases |es|
  {
    if es != [] {
      StepPreservesLookAlike(w1, w2, es[0]);
      RunPreservesLookAlike(Step(w1, es[0]), Step(w2, es[0]), es[1..]);
    }
  }

  /** A trace that writes only attributes outside the effect's three leaves the look alone. */
  lemma {:induction false} OtherAttrsKeepLook(w: WindowState, es: seq<Event>)
    requires forall i :: 0 <= i < |es| ==>
      es[i].SetDwmAttr? && es[i].id != DWMWA_SYSTEMBACKDROP_TYPE && es[i].id != DWMWA_MICA_EFFECT
    ensures LookOf(Run(w, es)) == LookOf(w)
    decreases |es|
  {
    if es != [] {
      OtherAttrsKeepLook(Step(w, es[0]), es[1..]);
    }
  }
}
