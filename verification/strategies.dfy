/** What each native strategy does, as the events it emits for a given version
    triple: the apply/clear pairs for Mica and for the acrylic family, the accent
    policy, the theme switch, and the dispatch by effect name. */
module Strategies {
  import opened Wrappers
  import opened Versions
  import opened Native
  import HexColor

  /** `RGB(40, 40, 40)`, the tint used when none is given. */
  const DefaultTint: bv32 := 0x0028_2828

  /** The effect names the dispatch recognises. */
  const EffectNames: set<string> := {"mica", "acrylic", "unified", "blurbehind"}

  /** A strategy's answer and the calls it made, in order. */
  datatype Outcome = Outcome(ok: bool, events: seq<Event>)

  /** `SetAccentPolicy`: nothing when the setter cannot be resolved; otherwise one
      policy, with a zero alpha raised to 1 for the acrylic state. */
  function AccentPolicyEvents(setterAvailable: bool, state: AccentState, color: bv32): seq<Event> {
    if !setterAvailable then [] else [SetAccent(AccentPolicy(state, color))]
  }

  /** The policy sent for a state and colour: acrylic with flags 0 and its colour
      rule, any other state with flags 2 and the colour as given. */
  function AccentPolicy(state: AccentState, color: bv32): Policy {
    if state == AccentAcrylicBlurBehind then Policy(state, 0, AcrylicColor(color))
    else Policy(state, 2, color)
  }

  /** The acrylic colour rule: a zero alpha byte is raised to 1. */
  function AcrylicColor(color: bv32): bv32 {
    if (color >> 24) & 0xFF == 0 then color | (1 << 24) else color
  }

  function ApplyAcrylicSpec(v: OsVersion, setterAvailable: bool, unified: bool, blurBehind: bool, color: bv32): Outcome {
    if !unified && IsWin11_22H2(v) then
      Outcome(true, [Extend, SetDwmAttr(DWMWA_SYSTEMBACKDROP_TYPE, DWMSBT_TRANSIENTWINDOW)])
    else if IsWin7Plus(v) then
      var state := if blurBehind then AccentAcrylicBlurBehind else AccentBlurBehind;
      Outcome(true, AccentPolicyEvents(setterAvailable, state, if color != 0 then color else DefaultTint))
    else
      Outcome(false, [])
  }

  function ClearAcrylicSpec(v: OsVersion, setterAvailable: bool, unified: bool): seq<Event> {
    if !unified && IsWin11_22H2(v) then
      [Reset, SetDwmAttr(DWMWA_SYSTEMBACKDROP_TYPE, DWMSBT_DISABLE)]
    else if IsWin7Plus(v) then
      AccentPolicyEvents(setterAvailable, AccentDisabled, 0)
    else
      []
  }

  function ApplyMicaSpec(v: OsVersion): Outcome {
    if IsWin11_22H2(v) then
      Outcome(true, [Extend, SetDwmAttr(DWMWA_SYSTEMBACKDROP_TYPE, DWMSBT_MAINWINDOW)])
    else if IsWin11(v) then
      Outcome(true, [Extend, SetDwmAttr(DWMWA_MICA_EFFECT, DWMSBT_MAINWINDOW)])
    else
      Outcome(false, [])
  }

  function ClearMicaSpec(v: OsVersion): seq<Event> {
    if IsWin11_22H2(v) then
      [Reset, SetDwmAttr(DWMWA_SYSTEMBACKDROP_TYPE, DWMSBT_DISABLE)]
    else if IsWin11(v) then
      [Reset, SetDwmAttr(DWMWA_MICA_EFFECT, 0)]
    else
      []
  }

  /** `ForceDarkTheme` (value 1) and `ForceLightTheme` (value 0). */
  function ThemeEvents(v: OsVersion, value: Dword): seq<Event> {
    if IsWin11(v) || IsWin10_20H1(v) then
      [SetDwmAttr(DWMWA_USE_IMMERSIVE_DARK_MODE, value)]
    else if IsWin10_1809(v) then
      [SetDwmAttr(DWMWA_USE_IMMERSIVE_DARK_MODE - 1, value)]
    else
      []
  }

  /** `ApplyEffect`: refuse without a window, then dispatch on the name to
      Mica or to the acrylic family with its (unified, blur-behind) flags. */
  function ApplyEffectSpec(v: OsVersion, setterAvailable: bool, window: bool, name: string, color: bv32): Outcome {
    if !window then Outcome(false, [])
    else if name == "mica" then ApplyMicaSpec(v)
    else if name == "acrylic" then ApplyAcrylicSpec(v, setterAvailable, false, true, color)
    else if name == "unified" then ApplyAcrylicSpec(v, setterAvailable, true, true, color)
    else if name == "blurbehind" then ApplyAcrylicSpec(v, setterAvailable, true, false, color)
    else Outcome(false, [])
  }

  /** `ClearEffect`: the clear matching each recognised name; `unified` and
      `blurbehind` share the unified clear. */
  function ClearEffectSpec(v: OsVersion, setterAvailable: bool, window: bool, name: string): Outcome {
    if !window then Outcome(false, [])
    else if name == "mica" then Outcome(true, ClearMicaSpec(v))
    else if name == "acrylic" then Outcome(true, ClearAcrylicSpec(v, setterAvailable, false))
    else if name == "unified" || name == "blurbehind" then Outcome(true, ClearAcrylicSpec(v, setterAvailable, true))
    else Outcome(false, [])
  }

  /** How a window looks when it shows the effect `name` and nothing else: Mica as
      the backdrop type from 22H2 on and as the older Mica attribute on earlier
      Windows 11, acrylic as the transient backdrop type from 22H2 on, and the
      acrylic family otherwise as the accent policy (with its default tint), over a
      frame extended only for the attribute forms. */
  function Shown(v: OsVersion, setterAvailable: bool, name: string, tint: bv32): Look {
    if name == "mica" then
      if IsWin11_22H2(v) then Look(true, DWMSBT_MAINWINDOW, 0, None)
      else if IsWin11(v) then Look(true, DWMSBT_DISABLE, DWMSBT_MAINWINDOW, None)
      else Neutral
    else if name == "acrylic" && IsWin11_22H2(v) then
      Look(true, DWMSBT_TRANSIENTWINDOW, 0, None)
    else if (name == "acrylic" || name == "unified" || name == "blurbehind") && IsWin7Plus(v) && setterAvailable then
      var state := if name == "blurbehind" then AccentBlurBehind else AccentAcrylicBlurBehind;
      Look(false, DWMSBT_DISABLE, 0, Some(AccentPolicy(state, if tint != 0 then tint else DefaultTint)))
    else
      Neutral
  }

  /** `Shown` is what applying the effect to a fresh window produces. */
  lemma ShownIsApplied(v: OsVersion, setterAvailable: bool, name: string, tint: bv32)
    ensures LookOf(Run(Fresh, ApplyEffectSpec(v, setterAvailable, true, name, tint).events)) ==
      Shown(v, setterAvailable, name, tint)
  {
    var a := ApplyEffectSpec(v, setterAvailable, true, name, tint).events;
    if |a| == 1 {
      RunShort(Fresh, a[0], a[0]);
    } else if |a| == 2 {
      RunShort(Fresh, a[0], a[1]);
      assert a == [a[0], a[1]];
    }
  }

  // ----- the accent policy -----

  /** Acrylic never reaches the compositor with a zero alpha: a zero alpha becomes 1
      and the colour bits are kept; any other alpha is sent as given. Flags are 0. */
  lemma AcrylicAlphaForced(color: bv32)
    ensures var es := AccentPolicyEvents(true, AccentAcrylicBlurBehind, color);
      |es| == 1 && es[0].SetAccent? &&
      var p := es[0].policy;
      p.state == AccentAcrylicBlurBehind && p.flags == 0 &&
      HexColor.Alpha(p.color) != 0 &&
      p.color & 0x00FF_FFFF == color & 0x00FF_FFFF &&
      (HexColor.Alpha(color) == 0 ==> HexColor.Alpha(p.color) == 1) &&
      (HexColor.Alpha(color) != 0 ==> p.color == color)
  {
    assert AccentPolicyEvents(true, AccentAcrylicBlurBehind, color) ==
      [SetAccent(Policy(AccentAcrylicBlurBehind, 0, AcrylicColor(color)))];
    RaisedAlpha(color);
  }

  /** The bit arithmetic of the alpha rule. */
  lemma RaisedAlpha(color: bv32)
    ensures var sent := AcrylicColor(color);
      HexColor.Alpha(sent) != 0 && sent & 0x00FF_FFFF == color & 0x00FF_FFFF &&
      (HexColor.Alpha(color) == 0 ==> HexColor.Alpha(sent) == 1) &&
      (HexColor.Alpha(color) != 0 ==> sent == color)
  {
    if HexColor.Alpha(color) == 0 {
      assert AcrylicColor(color) == color | (1 << 24);
      assert HexColor.Alpha(color | (1 << 24)) == 1;
      assert (color | (1 << 24)) & 0x00FF_FFFF == color & 0x00FF_FFFF;
    }
  }

  /** Every other accent state passes the colour through unchanged with flags 2,
      and without the setter no policy is sent at all. */
  lemma AccentPassThrough(state: AccentState, color: bv32)
    ensures state != AccentAcrylicBlurBehind ==>
      AccentPolicyEvents(true, state, color) == [SetAccent(Policy(state, 2, color))]
    ensures AccentPolicyEvents(false, state, color) == []
  {
  }

  /** On the accent path a tint of exactly 0 is replaced by dark grey, which the
      acrylic state then sends with alpha 1. */
  lemma DefaultTintOnAccentPath(v: OsVersion, unified: bool, blurBehind: bool)
    requires unified || !IsWin11_22H2(v)
    requires v.major > 6
    ensures ApplyAcrylicSpec(v, true, unified, blurBehind, 0).events ==
      if blurBehind then [SetAccent(Policy(AccentAcrylicBlurBehind, 0, 0x0128_2828))]
      else [SetAccent(Policy(AccentBlurBehind, 2, 0x0028_2828))]
  {
  }

  // ----- which strategy runs -----

  /** When each name succeeds: Mica from Windows 11 on; acrylic with the backdrop
      attribute from 22H2 on or else through the accent; the unified pair only
      through the accent. Never without a window or for another name. */
  lemma ApplySucceedsExactly(v: OsVersion, setterAvailable: bool, window: bool, name: string, color: bv32)
    ensures ApplyEffectSpec(v, setterAvailable, window, name, color).ok <==>
      window &&
      ((name == "mica" && IsWin11(v)) ||
       (name == "acrylic" && (IsWin11_22H2(v) || v.major > 6)) ||
       ((name == "unified" || name == "blurbehind") && v.major > 6))
  {
  }

  /** A failed apply makes no native call, and a failed clear neither. */
  lemma FailureIsSilent(v: OsVersion, setterAvailable: bool, window: bool, name: string, color: bv32)
    ensures !ApplyEffectSpec(v, setterAvailable, window, name, color).ok ==>
      ApplyEffectSpec(v, setterAvailable, window, name, color).events == []
    ensures !ClearEffectSpec(v, setterAvailable, window, name).ok ==>
      ClearEffectSpec(v, setterAvailable, window, name).events == []
  {
  }

  /** Clearing succeeds exactly for a recognised name on a present window. */
  lemma ClearSucceedsExactly(v: OsVersion, setterAvailable: bool, window: bool, name: string)
    ensures ClearEffectSpec(v, setterAvailable, window, name).ok <==> window && name in EffectNames
  {
  }

  /** With a major version of at most 6 and a build below 22000 no effect can be applied. */
  lemma NothingBelowFloor(v: OsVersion, setterAvailable: bool, window: bool, name: string, color: bv32)
    requires v.major <= 6 && v.build < 22000
    ensures !ApplyEffectSpec(v, setterAvailable, window, name, color).ok
    ensures ApplyEffectSpec(v, setterAvailable, window, name, color).events == []
  {
  }

  /** Mica picks the backdrop attribute from build 22621 on, the older Mica
      attribute on earlier Windows 11 builds, and fails before build 22000. */
  lemma MicaByBuild(v: OsVersion)
    ensures v.build >= 22621 ==>
      ApplyMicaSpec(v) == Outcome(true, [Extend, SetDwmAttr(38, 2)])
    ensures 22000 <= v.build < 22621 ==>
      ApplyMicaSpec(v) == Outcome(true, [Extend, SetDwmAttr(1029, 2)])
    ensures v.build < 22000 ==> ApplyMicaSpec(v) == Outcome(false, [])
  {
  }

  /** Acrylic uses the transient backdrop type from build 22621 on unless it is
      unified; otherwise it sends an accent (state 4 for acrylic blur-behind, 3
      for plain blur-behind) from major version 7 on, and fails on anything older. */
  lemma AcrylicByVersion(v: OsVersion, setterAvailable: bool, unified: bool, blurBehind: bool, color: bv32)
    ensures !unified && v.build >= 22621 ==>
      ApplyAcrylicSpec(v, setterAvailable, unified, blurBehind, color) ==
        Outcome(true, [Extend, SetDwmAttr(38, 3)])
    ensures (unified || v.build < 22621) && v.major > 6 ==>
      var o := ApplyAcrylicSpec(v, setterAvailable, unified, blurBehind, color);
      o.ok && |o.events| == (if setterAvailable then 1 else 0) &&
      forall e <- o.events :: e.SetAccent? && e.policy.state.Code() == (if blurBehind then 4 else 3)
    ensures (unified || v.build < 22621) && v.major <= 6 ==>
      ApplyAcrylicSpec(v, setterAvailable, unified, blurBehind, color) == Outcome(false, [])
  {
  }

  /** Mica's clear sends the values that switch its apply off: the backdrop type
      back to 1 from build 22621 on, the Mica attribute back to 0 on earlier Windows
      11 builds, each with the frame reset; nothing before build 22000. */
  lemma MicaClearByBuild(v: OsVersion)
    ensures v.build >= 22621 ==> ClearMicaSpec(v) == [Reset, SetDwmAttr(38, 1)]
    ensures 22000 <= v.build < 22621 ==> ClearMicaSpec(v) == [Reset, SetDwmAttr(1029, 0)]
    ensures v.build < 22000 ==> ClearMicaSpec(v) == []
  {
  }

  /** The acrylic clear: the backdrop type back to 1 with the frame reset from build
      22621 on unless unified; otherwise a disabled accent (state 0, colour 0) from
      major version 7 on when the setter is there, and nothing else. */
  lemma AcrylicClearByVersion(v: OsVersion, setterAvailable: bool, unified: bool)
    ensures !unified && v.build >= 22621 ==>
      ClearAcrylicSpec(v, setterAvailable, unified) == [Reset, SetDwmAttr(38, 1)]
    ensures (unified || v.build < 22621) && v.major > 6 && setterAvailable ==>
      ClearAcrylicSpec(v, setterAvailable, unified) == [SetAccent(Policy(AccentDisabled, 2, 0))]
    ensures (unified || v.build < 22621) && (v.major <= 6 || !setterAvailable) ==>
      ClearAcrylicSpec(v, setterAvailable, unified) == []
  {
  }

  // ----- the theme switch -----

  /** Dark and light pick the same attribute: the modern one from build 19041 on,
      the one below it from 17763 to 19040, none before; only the value differs. */
  lemma ThemeByBuild(v: OsVersion, value: Dword)
    ensures v.build >= 19041 ==> ThemeEvents(v, value) == [SetDwmAttr(20, value)]
    ensures 17763 <= v.build < 19041 ==> ThemeEvents(v, value) == [SetDwmAttr(19, value)]
    ensures v.build < 17763 ==> ThemeEvents(v, value) == []
  {
  }

  /** Forcing a theme does not change the window's effect. */
  lemma ThemeKeepsLook(w: WindowState, v: OsVersion, value: Dword)
    ensures LookOf(Run(w, ThemeEvents(v, value))) == LookOf(w)
  {
    OtherAttrsKeepLook(w, ThemeEvents(v, value));
  }

  // ----- apply and clear undo each other -----

  /** Mica's clear, on the same version, undoes Mica's apply. */
  lemma MicaPairRestores(v: OsVersion, w: WindowState)
    requires LookOf(w) == Neutral
    ensures LookOf(Run(Run(w, ApplyMicaSpec(v).events), ClearMicaSpec(v))) == Neutral
  {
    if IsWin11_22H2(v) {
      var a1 := SetDwmAttr(DWMWA_SYSTEMBACKDROP_TYPE, DWMSBT_MAINWINDOW);
      RunShort(w, Extend, a1);
      RunShort(Step(Step(w, Extend), a1), Reset, SetDwmAttr(DWMWA_SYSTEMBACKDROP_TYPE, DWMSBT_DISABLE));
    } else if IsWin11(v) {
      var a1 := SetDwmAttr(DWMWA_MICA_EFFECT, DWMSBT_MAINWINDOW);
      RunShort(w, Extend, a1);
      RunShort(Step(Step(w, Extend), a1), Reset, SetDwmAttr(DWMWA_MICA_EFFECT, 0));
    }
  }

  /** The acrylic family's clear, with the same `unified` flag and version, undoes its apply. */
  lemma AcrylicPairRestores(v: OsVersion, setterAvailable: bool, unified: bool, blurBehind: bool,
                            color: bv32, w: WindowState)
    requires LookOf(w) == Neutral
    ensures LookOf(Run(Run(w, ApplyAcrylicSpec(v, setterAvailable, unified, blurBehind, color).events),
                       ClearAcrylicSpec(v, setterAvailable, unified))) == Neutral
  {
    if !unified && IsWin11_22H2(v) {
      var a1 := SetDwmAttr(DWMWA_SYSTEMBACKDROP_TYPE, DWMSBT_TRANSIENTWINDOW);
      RunShort(w, Extend, a1);
      RunShort(Step(Step(w, Extend), a1), Reset, SetDwmAttr(DWMWA_SYSTEMBACKDROP_TYPE, DWMSBT_DISABLE));
    } else if IsWin7Plus(v) && setterAvailable {
      var a := ApplyAcrylicSpec(v, setterAvailable, unified, blurBehind, color).events;
      var c := ClearAcrylicSpec(v, setterAvailable, unified);
      RunShort(w, a[0], a[0]);
      RunShort(Step(w, a[0]), c[0], c[0]);
    }
  }

  /** On a window with no effect, applying any name and then clearing that name,
      under the same version, leaves no effect. */
  lemma ApplyThenClearRestores(v: OsVersion, setterAvailable: bool, name: string, color: bv32, w: WindowState)
    requires LookOf(w) == Neutral
    ensures LookOf(Run(w, ApplyEffectSpec(v, setterAvailable, true, name, color).events +
                          ClearEffectSpec(v, setterAvailable, true, name).events)) == Neutral
  {
    var a := ApplyEffectSpec(v, setterAvailable, true, name, color).events;
    var c := ClearEffectSpec(v, setterAvailable, true, name).events;
    RunAppend(w, a, c);
    if name == "mica" {
      MicaPairRestores(v, w);
    } else if name == "acrylic" {
      AcrylicPairRestores(v, setterAvailable, false, true, color, w);
    } else if name == "unified" {
      AcrylicPairRestores(v, setterAvailable, true, true, color, w);
    } else if name == "blurbehind" {
      AcrylicPairRestores(v, setterAvailable, true, false, color, w);
    } else {
      assert a == [] && c == [];
    }
  }

  /** An apply is visible exactly when it made a call: only then does the window
      stop looking like one with no effect. */
  lemma ApplyIsVisible(v: OsVersion, setterAvailable: bool, name: string, color: bv32)
    ensures Shown(v, setterAvailable, name, color) != Neutral <==>
      ApplyEffectSpec(v, setterAvailable, true, name, color).events != []
  {
    ShownIsApplied(v, setterAvailable, name, color);
  }

  /** Clearing the effect a window shows leaves it neutral. */
  lemma ClearRestores(v: OsVersion, setterAvailable: bool, name: string, color: bv32, w: WindowState)
    requires LookOf(w) == Shown(v, setterAvailable, name, color)
    ensures LookOf(Run(w, ClearEffectSpec(v, setterAvailable, true, name).events)) == Neutral
  {
    var a := ApplyEffectSpec(v, setterAvailable, true, name, color).events;
    var c := ClearEffectSpec(v, setterAvailable, true, name).events;
    ShownIsApplied(v, setterAvailable, name, color);
    RunPreservesLookAlike(w, Run(Fresh, a), c);
    RunAppend(Fresh, a, c);
    ApplyThenClearRestores(v, setterAvailable, name, color, Fresh);
  }

  /** Clearing the shown effect and applying another leaves exactly the new one
      visible, with nothing left of the old (and no effect if the apply failed). */
  lemma ReplaceEffect(v: OsVersion, setterAvailable: bool, w: WindowState,
                      previous: string, oldTint: bv32, next: string, tint: bv32)
    requires LookOf(w) == Shown(v, setterAvailable, previous, oldTint)
    ensures LookOf(Run(w, ClearEffectSpec(v, setterAvailable, true, previous).events +
                          ApplyEffectSpec(v, setterAvailable, true, next, tint).events)) ==
            Shown(v, setterAvailable, next, tint)
  {
    var c := ClearEffectSpec(v, setterAvailable, true, previous).events;
    var a := ApplyEffectSpec(v, setterAvailable, true, next, tint).events;
    RunAppend(w, c, a);
    ClearRestores(v, setterAvailable, previous, oldTint, w);
    RunPreservesLookAlike(Run(w, c), Fresh, a);
    ShownIsApplied(v, setterAvailable, next, tint);
  }
}
