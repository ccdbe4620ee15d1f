/** The script-facing `HandleWindowEffect` as a transition of its single
    `current` slot: the reply, the new slot and the native calls made. */
module Handler {
  import opened Wrappers
  import opened Versions
  import opened Native
  import opened Strategies
  import HexColor

  /** What the handler hands back to the page script. */
  datatype Reply = NoReply | Text(text: string) | Flag(flag: bool)

  /** Whether the request was one the handler knows, its reply, the slot afterwards
      and the native calls made, in order. */
  datatype Response = Response(handled: bool, reply: Reply, current: string, events: seq<Event>)

  /** The values the slot can hold: no effect, or a recognised name. */
  predicate IsSlotValue(current: string) {
    current == "" || current in EffectNames
  }

  /** The tint an `ApplyEffect` request carries: its colour option parsed, or 0. */
  function TintOf(color: Option<string>): bv32
    requires color.Some? ==> HexColor.WellFormed(color.value)
  {
    if color.Some? then HexColor.ParseHexColor(color.value) else 0
  }

  /** One request. `name` is the first argument when it is a string; `color` is the
      `color` key of the second argument when that is an object holding a string. */
  function HandleSpec(v: OsVersion, setterAvailable: bool, window: bool, current: string,
                      fn: string, name: Option<string>, color: Option<string>): Response
    requires color.Some? ==> HexColor.WellFormed(color.value)
  {
    if fn == "GetEffect" then
      Response(true, Text(current), current, [])
    else if fn == "ApplyEffect" then
      if name.None? then
        Response(true, Flag(false), current, [])
      else
        var cleared := ClearEffectSpec(v, setterAvailable, window, current);
        var afterClear := if cleared.ok then "" else current;
        var applied := ApplyEffectSpec(v, setterAvailable, window, name.value, TintOf(color));
        Response(true, Flag(applied.ok), if applied.ok then name.value else afterClear,
                 cleared.events + applied.events)
    else if fn == "ClearEffect" then
      Response(true, NoReply, "",
               if current != "" then ClearEffectSpec(v, setterAvailable, window, current).events else [])
    else
      Response(false, NoReply, current, [])
  }

  /** The slot only ever holds no effect or a recognised name, and it can hold a
      name only when there is a window. */
  lemma SlotStaysRecognised(v: OsVersion, setterAvailable: bool, window: bool, current: string,
                            fn: string, name: Option<string>, color: Option<string>)
    requires color.Some? ==> HexColor.WellFormed(color.value)
    requires IsSlotValue(current) && (!window ==> current == "")
    ensures var r := HandleSpec(v, setterAvailable, window, current, fn, name, color);
      IsSlotValue(r.current) && (!window ==> r.current == "")
  {
  }

  /** GetEffect reports the slot and changes nothing; a request the handler does not
      know is not handled and changes nothing; ApplyEffect without a string name
      answers false and changes nothing. */
  lemma RequestsThatChangeNothing(v: OsVersion, setterAvailable: bool, window: bool, current: string,
                                  fn: string, name: Option<string>, color: Option<string>)
    requires color.Some? ==> HexColor.WellFormed(color.value)
    ensures var r := HandleSpec(v, setterAvailable, window, current, "GetEffect", None, color);
      r == Response(true, Text(current), current, [])
    ensures var r := HandleSpec(v, setterAvailable, window, current, "ApplyEffect", None, color);
      r == Response(true, Flag(false), current, [])
    ensures fn != "GetEffect" && fn != "ApplyEffect" && fn != "ClearEffect" ==>
      HandleSpec(v, setterAvailable, window, current, fn, name, color) == Response(false, NoReply, current, [])
  {
  }

  /** With a window, ApplyEffect with a string name clears the previous effect first
      and then holds the name if the apply succeeded and no effect otherwise, an
      unrecognised name included. */
  lemma ApplyReplacesSlot(v: OsVersion, setterAvailable: bool, current: string,
                          name: string, color: Option<string>)
    requires color.Some? ==> HexColor.WellFormed(color.value)
    requires IsSlotValue(current)
    ensures var r := HandleSpec(v, setterAvailable, true, current, "ApplyEffect", Some(name), color);
      var applied := ApplyEffectSpec(v, setterAvailable, true, name, TintOf(color));
      r.reply == Flag(applied.ok) &&
      r.current == (if applied.ok then name else "") &&
      r.events == ClearEffectSpec(v, setterAvailable, true, current).events + applied.events
    ensures name !in EffectNames ==>
      HandleSpec(v, setterAvailable, true, current, "ApplyEffect", Some(name), color).current == ""
  {
    ClearSucceedsExactly(v, setterAvailable, true, current);
    ApplySucceedsExactly(v, setterAvailable, true, name, TintOf(color));
  }

  /** ClearEffect always empties the slot; a second ClearEffect makes no native call. */
  lemma ClearTwiceIsQuiet(v: OsVersion, setterAvailable: bool, window: bool, current: string,
                          name: Option<string>, color: Option<string>)
    requires color.Some? ==> HexColor.WellFormed(color.value)
    ensures var first := HandleSpec(v, setterAvailable, window, current, "ClearEffect", name, color);
      var second := HandleSpec(v, setterAvailable, window, first.current, "ClearEffect", name, color);
      first.current == "" && second.current == "" && second.events == [] &&
      (current == "" ==> first.events == [])
  {
  }

  /** An ApplyEffect request on a window that shows the slot's effect leaves it
      showing the new slot's effect, applied with the request's tint, and nothing else. */
  lemma ApplyRequestShowsSlot(v: OsVersion, setterAvailable: bool, current: string, tint: bv32,
                              w: WindowState, name: string, color: Option<string>)
    requires color.Some? ==> HexColor.WellFormed(color.value)
    requires IsSlotValue(current)
    requires LookOf(w) == Shown(v, setterAvailable, current, tint)
    ensures var r := HandleSpec(v, setterAvailable, true, current, "ApplyEffect", Some(name), color);
      LookOf(Run(w, r.events)) ==
        Shown(v, setterAvailable, r.current, if r.reply == Flag(true) then TintOf(color) else tint)
  {
    var applied := ApplyEffectSpec(v, setterAvailable, true, name, TintOf(color));
    ReplaceEffect(v, setterAvailable, w, current, tint, name, TintOf(color));
    ApplyReplacesSlot(v, setterAvailable, current, name, color);
    if !applied.ok {
      FailureIsSilent(v, setterAvailable, true, name, TintOf(color));
    }
  }

  /** A ClearEffect request leaves a window that showed the slot's effect with none. */
  lemma ClearRequestShowsNothing(v: OsVersion, setterAvailable: bool, window: bool, current: string,
                                 tint: bv32, w: WindowState)
    requires IsSlotValue(current) && (!window ==> current == "")
    requires LookOf(w) == Shown(v, setterAvailable, current, tint)
    ensures var r := HandleSpec(v, setterAvailable, window, current, "ClearEffect", None, None);
      LookOf(Run(w, r.events)) == Neutral
  {
    if current != "" {
      ClearRestores(v, setterAvailable, current, tint, w);
    }
  }
}
