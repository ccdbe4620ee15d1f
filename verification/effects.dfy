/** The effects engine as the source runs it: each strategy makes its native calls
    one after the other (appended here to `trace`), asking the version oracle as it
    goes, and the script-facing handler keeps the single `current` effect name. */
module Effects {
  import opened Wrappers
  import opened Versions
  import opened VersionCache
  import opened Native
  import opened Strategies
  import opened Handler
  import HexColor

  /** The engine's state for the one client window. `accentSetterAvailable` says
      whether the composition-attribute setter could be resolved, `windowPresent`
      whether the client window handle is set, and `tint` is the colour the current
      effect was applied with. */
  class EffectsContext {
    const oracle: VersionOracle
    const accentSetterAvailable: bool
    const windowPresent: bool
    var trace: seq<Event>
    var current: string
    ghost var tint: bv32

    /** `current` names a recognised effect or none, and the window looks exactly as
        if only that effect had ever been applied to it. */
    ghost predicate Valid()
      reads this, oracle, oracle.version
    {
      oracle.Valid() &&
      IsSlotValue(current) &&
      (!windowPresent ==> current == "") &&
      LookOf(Run(Fresh, trace)) == Shown(oracle.os, accentSetterAvailable, current, tint)
    }

    constructor (os: OsVersion, accentSetterAvailable: bool, windowPresent: bool)
      ensures Valid() && fresh(oracle) && fresh(oracle.version)
      ensures oracle.os == os && oracle.queries == 0
      ensures this.accentSetterAvailable == accentSetterAvailable && this.windowPresent == windowPresent
      ensures trace == [] && current == ""
    {
      oracle := new VersionOracle(os);
      this.accentSetterAvailable := accentSetterAvailable;
      this.windowPresent := windowPresent;
      trace := [];
      current := "";
      tint := 0;
    }

    method ExtendClientArea()
      modifies this`trace
      ensures trace == old(trace) + [Extend]
    {
      trace := trace + [Extend];
    }

    method ResetClientArea()
      modifies this`trace
      ensures trace == old(trace) + [Reset]
    {
      trace := trace + [Reset];
    }

    method SetWindowAttribute(id: Dword, value: Dword)
      modifies this`trace
      ensures trace == old(trace) + [SetDwmAttr(id, value)]
    {
      trace := trace + [SetDwmAttr(id, value)];
    }

    method SetAccentPolicy(state: AccentState, color: bv32)
      modifies this`trace
      ensures trace == old(trace) + AccentPolicyEvents(accentSetterAvailable, state, color)
    {
      if !accentSetterAvailable {
        return;
      }
      var isAcrylic := state == AccentAcrylicBlurBehind;
      var sent := color;
      if isAcrylic && (sent >> 24) & 0xFF == 0 {
        sent := sent | (1 << 24);
      }
      var policy := Policy(state, if isAcrylic then 0 else 2, sent);
      trace := trace + [SetAccent(policy)];
    }

    method ApplyAcrylic(unified: bool, blurBehind: bool, color: bv32) returns (ok: bool)
      requires oracle.Valid()
      modifies this`trace, oracle, oracle.version
      ensures oracle.Valid()
      ensures var o := ApplyAcrylicSpec(oracle.os, accentSetterAvailable, unified, blurBehind, color);
        ok == o.ok && trace == old(trace) + o.events
    {
      var backdrop := false;
      if !unified {
        backdrop := oracle.IsWin11_22H2();
      }
      if backdrop {
        ExtendClientArea();
        SetWindowAttribute(DWMWA_SYSTEMBACKDROP_TYPE, DWMSBT_TRANSIENTWINDOW);
        return true;
      }
      var legacy := oracle.IsWin7Plus();
      if legacy {
        var state := if blurBehind then AccentAcrylicBlurBehind else AccentBlurBehind;
        var tinted := if color != 0 then color else DefaultTint;
        SetAccentPolicy(state, tinted);
        return true;
      }
      return false;
    }

    method ClearAcrylic(unified: bool)
      requires oracle.Valid()
      modifies this`trace, oracle, oracle.version
      ensures oracle.Valid()
      ensures trace == old(trace) + ClearAcrylicSpec(oracle.os, accentSetterAvailable, unified)
    {
      var backdrop := false;
      if !unified {
        backdrop := oracle.IsWin11_22H2();
      }
      if backdrop {
        ResetClientArea();
        SetWindowAttribute(DWMWA_SYSTEMBACKDROP_TYPE, DWMSBT_DISABLE);
      } else {
        var legacy := oracle.IsWin7Plus();
        if legacy {
          SetAccentPolicy(AccentDisabled, 0);
        }
      }
    }

    method ApplyMica() returns (ok: bool)
      requires oracle.Valid()
      modifies this`trace, oracle, oracle.version
      ensures oracle.Valid()
      ensures var o := ApplyMicaSpec(oracle.os); ok == o.ok && trace == old(trace) + o.events
    {
      var h22 := oracle.IsWin11_22H2();
      if h22 {
        ExtendClientArea();
        SetWindowAttribute(DWMWA_SYSTEMBACKDROP_TYPE, DWMSBT_MAINWINDOW);
        return true;
      }
      var win11 := oracle.IsWin11();
      if win11 {
        ExtendClientArea();
        SetWindowAttribute(DWMWA_MICA_EFFECT, DWMSBT_MAINWINDOW);
        return true;
      }
      return false;
    }

    method ClearMica()
      requires oracle.Valid()
      modifies this`trace, oracle, oracle.version
      ensures oracle.Valid()
      ensures trace == old(trace) + ClearMicaSpec(oracle.os)
    {
      var h22 := oracle.IsWin11_22H2();
      if h22 {
        ResetClientArea();
        SetWindowAttribute(DWMWA_SYSTEMBACKDROP_TYPE, DWMSBT_DISABLE);
      } else {
        var win11 := oracle.IsWin11();
        if win11 {
          ResetClientArea();
          SetWindowAttribute(DWMWA_MICA_EFFECT, 0);
        }
      }
    }

    /** Writes the dark-mode attribute; the effect the window shows is untouched. */
    method ForceDarkTheme()
      requires Valid()
      modifies this`trace, oracle, oracle.version
      ensures Valid()
      ensures trace == old(trace) + ThemeEvents(oracle.os, 1)
    {
      ghost var before := trace;
      var modern := oracle.IsWin11();
      if !modern {
        modern := oracle.IsWin10_20H1();
      }
      if modern {
        SetWindowAttribute(DWMWA_USE_IMMERSIVE_DARK_MODE, 1);
      } else {
        var legacy := oracle.IsWin10_1809();
        if legacy {
          SetWindowAttribute(DWMWA_USE_IMMERSIVE_DARK_MODE - 1, 1);
        }
      }
      RunAppend(Fresh, before, ThemeEvents(oracle.os, 1));
      ThemeKeepsLook(Run(Fresh, before), oracle.os, 1);
    }

    /** Writes the dark-mode attribute off; the effect the window shows is untouched. */
    method ForceLightTheme()
      requires Valid()
      modifies this`trace, oracle, oracle.version
      ensures Valid()
      ensures trace == old(trace) + ThemeEvents(oracle.os, 0)
    {
      ghost var before := trace;
      var modern := oracle.IsWin11();
      if !modern {
        modern := oracle.IsWin10_20H1();
      }
      if modern {
        SetWindowAttribute(DWMWA_USE_IMMERSIVE_DARK_MODE, 0);
      } else {
        var legacy := oracle.IsWin10_1809();
        if legacy {
          SetWindowAttribute(DWMWA_USE_IMMERSIVE_DARK_MODE - 1, 0);
        }
      }
      RunAppend(Fresh, before, ThemeEvents(oracle.os, 0));
      ThemeKeepsLook(Run(Fresh, before), oracle.os, 0);
    }

    method ApplyEffect(name: string, color: bv32) returns (ok: bool)
      requires oracle.Valid()
      modifies this`trace, oracle, oracle.version
      ensures oracle.Valid()
      ensures var o := ApplyEffectSpec(oracle.os, accentSetterAvailable, windowPresent, name, color);
        ok == o.ok && trace == old(trace) + o.events
    {
      if !windowPresent {
        return false;
      }
      if name == "mica" {
        ok := ApplyMica();
      } else if name == "acrylic" {
        ok := ApplyAcrylic(false, true, color);
      } else if name == "unified" {
        ok := ApplyAcrylic(true, true, color);
      } else if name == "blurbehind" {
        ok := ApplyAcrylic(true, false, color);
      } else {
        ok := false;
      }
    }

    method ClearEffect(name: string) returns (ok: bool)
      requires oracle.Valid()
      modifies this`trace, oracle, oracle.version
      ensures oracle.Valid()
      ensures var o := ClearEffectSpec(oracle.os, accentSetterAvailable, windowPresent, name);
        ok == o.ok && trace == old(trace) + o.events
    {
      if !windowPresent {
        return false;
      }
      if name == "mica" {
        ClearMica();
        ok := true;
      } else if name == "acrylic" {
        ClearAcrylic(false);
        ok := true;
      } else if name == "unified" || name == "blurbehind" {
        ClearAcrylic(true);
        ok := true;
      } else {
        ok := false;
      }
    }

    /** GetEffect: the slot's name. */
    method GetEffect() returns (reply: Reply)
      requires Valid()
      ensures var r := HandleSpec(oracle.os, accentSetterAvailable, windowPresent, current,
                                  "GetEffect", None, None);
        reply == r.reply
    {
      reply := Text(current);
    }

    /** ApplyEffect: clear the effect in the slot, apply the named one, and keep its
        name if that succeeded. */
    method ApplyEffectRequest(name: Option<string>, color: Option<string>) returns (reply: Reply)
      requires Valid()
      requires color.Some? ==> HexColor.WellFormed(color.value)
      modifies this, oracle, oracle.version
      ensures Valid()
      ensures var r := HandleSpec(oracle.os, accentSetterAvailable, windowPresent, old(current),
                                  "ApplyEffect", name, color);
        reply == r.reply && current == r.current && trace == old(trace) + r.events
    {
      var success := false;
      if name.Some? {
        ghost var previous := current;
        var tintColor: bv32 := 0;
        if color.Some? {
          tintColor := HexColor.ParseHexColor(color.value);
        }
        assert tintColor == TintOf(color);
        success := ReplaceSlot(name.value, tintColor);
        ApplyRequestBookkeeping(oracle.os, accentSetterAvailable, windowPresent, previous, name.value, color,
                                success, current);
      }
      reply := Flag(success);
    }

    /** ApplyEffect with a name: clear the slot's effect, then apply `name` and hold
        it if that succeeded; the slot is empty if it did not. */
    method ReplaceSlot(name: string, tintColor: bv32) returns (success: bool)
      requires Valid()
      modifies this`trace, this`current, this`tint, oracle, oracle.version
      ensures Valid()
      ensures var c := ClearEffectSpec(oracle.os, accentSetterAvailable, windowPresent, old(current));
        var a := ApplyEffectSpec(oracle.os, accentSetterAvailable, windowPresent, name, tintColor);
        success == a.ok && trace == old(trace) + (c.events + a.events) &&
        current == if a.ok then name else ""
    {
      ghost var before := trace;
      ClearSlot();
      ghost var middle := trace;
      success := ApplyToEmptySlot(name, tintColor);
      AppendAssoc(before, middle[|before|..], trace[|middle|..]);
    }

    /** The first half of ApplyEffect: clear the slot's effect, and empty the slot if
        that succeeded. The slot holds a recognised name only on a window, so it is
        empty afterwards either way and the window shows no effect. */
    method ClearSlot()
      requires Valid()
      modifies this`trace, this`current, this`tint, oracle, oracle.version
      ensures Valid() && current == "" && tint == old(tint)
      ensures trace == old(trace) + ClearEffectSpec(oracle.os, accentSetterAvailable, windowPresent, old(current)).events
    {
      ghost var v, previous, before := oracle.os, current, trace;
      var cleared := ClearEffect(current);
      if cleared {
        current := "";
      }
      ClearSucceedsExactly(v, accentSetterAvailable, windowPresent, previous);
      if windowPresent && previous != "" {
        RunAppend(Fresh, before, ClearEffectSpec(v, accentSetterAvailable, true, previous).events);
        ClearRestores(v, accentSetterAvailable, previous, tint, Run(Fresh, before));
      } else {
        FailureIsSilent(v, accentSetterAvailable, windowPresent, previous, tint);
        assert trace == before;
      }
    }

    /** The second half of ApplyEffect: apply `name` to a window showing no effect,
        and hold the name if that succeeded. */
    method ApplyToEmptySlot(name: string, tintColor: bv32) returns (success: bool)
      requires Valid() && current == ""
      modifies this`trace, this`current, this`tint, oracle, oracle.version
      ensures Valid()
      ensures var a := ApplyEffectSpec(oracle.os, accentSetterAvailable, windowPresent, name, tintColor);
        success == a.ok && trace == old(trace) + a.events && current == if a.ok then name else ""
    {
      ghost var v, before, oldTint := oracle.os, trace, tint;
      success := ApplyEffect(name, tintColor);
      if success {
        current := name;
        tint := tintColor;
      }
      ApplySucceedsExactly(v, accentSetterAvailable, windowPresent, name, tintColor);
      FailureIsSilent(v, accentSetterAvailable, windowPresent, name, tintColor);
      ghost var a := ApplyEffectSpec(v, accentSetterAvailable, windowPresent, name, tintColor).events;
      RunAppend(Fresh, before, a);
      FreshIsNeutral();
      RunPreservesLookAlike(Run(Fresh, before), Fresh, a);
      ShownIsApplied(v, accentSetterAvailable, name, tintColor);
    }

    /** ClearEffect: clear the effect in the slot, if any, and empty it. */
    method ClearEffectRequest()
      requires Valid()
      modifies this, oracle, oracle.version
      ensures Valid()
      ensures var r := HandleSpec(oracle.os, accentSetterAvailable, windowPresent, old(current),
                                  "ClearEffect", None, None);
        current == r.current && trace == old(trace) + r.events
    {
      if current != "" {
        ghost var before, v := trace, oracle.os;
        var ignored := ClearEffect(current);
        RunAppend(Fresh, before, ClearEffectSpec(v, accentSetterAvailable, true, current).events);
        ClearRestores(v, accentSetterAvailable, current, tint, Run(Fresh, before));
      }
      current := "";
    }

    /** The script-facing entry point: one request, answered as `HandleSpec` says. */
    method HandleWindowEffect(fn: string, name: Option<string>, color: Option<string>)
      returns (handled: bool, reply: Reply)
      requires Valid()
      requires color.Some? ==> HexColor.WellFormed(color.value)
      modifies this, oracle, oracle.version
      ensures Valid()
      ensures var r := HandleSpec(oracle.os, accentSetterAvailable, windowPresent, old(current),
                                  fn, name, color);
        handled == r.handled && reply == r.reply && current == r.current && trace == old(trace) + r.events
    {
      if fn == "GetEffect" {
        reply := GetEffect();
        return true, reply;
      } else if fn == "ApplyEffect" {
        reply := ApplyEffectRequest(name, color);
        return true, reply;
      } else if fn == "ClearEffect" {
        ClearEffectRequest();
        return true, NoReply;
      }
      return false, NoReply;
    }
  }

  /** The bookkeeping of one ApplyEffect request: the reply, the slot and the calls
      are the ones `HandleSpec` gives, and the slot stays a recognised value. */
  lemma ApplyRequestBookkeeping(v: OsVersion, setterAvailable: bool, window: bool, previous: string,
                                name: string, color: Option<string>, success: bool, current: string)
    requires color.Some? ==> HexColor.WellFormed(color.value)
    requires IsSlotValue(previous) && (!window ==> previous == "")
    requires success == ApplyEffectSpec(v, setterAvailable, window, name, TintOf(color)).ok
    requires current == if success then name else ""
    ensures var r := HandleSpec(v, setterAvailable, window, previous, "ApplyEffect", Some(name), color);
      r.reply == Flag(success) && r.current == current &&
      r.events == ClearEffectSpec(v, setterAvailable, window, previous).events +
                  ApplyEffectSpec(v, setterAvailable, window, name, TintOf(color)).events
  {
    SlotStaysRecognised(v, setterAvailable, window, previous, "ApplyEffect", Some(name), color);
    ClearSucceedsExactly(v, setterAvailable, window, previous);
  }

  /** Concatenation is associative. */
  lemma AppendAssoc<T>(a: seq<T>, b: seq<T>, c: seq<T>)
    ensures a + b + c == a + (b + c)
  {
  }
}
