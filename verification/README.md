# Window effects engine — a Dafny model

This project models the window-effects engine of the league client loader
(`d3d9/src/renderer/effects.cc`). The engine puts a backdrop effect on the
client window: Mica, acrylic, "unified" acrylic or plain blur-behind. It picks
the newest native mechanism the running Windows version offers. It also keeps a
single script-visible slot holding the name of the effect currently applied.

The model has five layers:

- **`HexColor`** (`hex_color.dfy`). `ParseHexColor` turns `#RGB`, `#RGBA`,
  `#RRGGBB` and `#RRGGBBAA` (the `#` is optional) into a packed
  `alpha << 24 | red << 16 | green << 8 | blue` word, using bitvectors. Every
  other shape gives the sentinel 0.
  - The short forms use the parser's own digit rule, `toupper` followed by
    counting from `'A'` or `'0'`.
  - That rule is proved to agree with an independent reading of a hex digit.
- **`Versions`** (`versions.dfy`) and **`VersionCache`** (`version_oracle.dfy`).
  - The OS version triple is an input.
  - The classifier predicates are pure functions of the triple.
  - `VersionOracle` is a class over the three-slot `version` array that `WinVer`
    fills once. Each `IsWin*` method makes the same cached reads as the source
    and is proved equal to its predicate.
- **`Native`** (`native.dfy`). Every native call is an event of a trace:
  - `Extend` and `Reset` set the frame margins;
  - `SetDwmAttr(id, value)` sets one window attribute;
  - `SetAccent(policy)` sets the legacy composition attribute.

  An abstract window records what these events leave behind. `LookOf` projects
  out the part that decides the backdrop. An attribute never written reads as its
  platform default: 0 for the Mica attribute and `DWMSBT_AUTO` (0) for the
  backdrop type. The clears write `DWMSBT_DISABLE` (1) to the backdrop type
  instead. The look counts both values as "no system backdrop", so a cleared
  window looks like a fresh one.
- **`Strategies`** (`strategies.dfy`). For each strategy, a function gives the
  outcome and the events it emits for a version triple. The lemmas cover:
  - which mechanism each strategy picks;
  - the accent-policy colour rules;
  - apply/clear pairing, stated as "the look is restored";
  - `Shown`, an explicit description of how a window showing exactly one effect
    looks, proved equal to what applying that effect produces.
- **`Handler`** (`handler.dfy`) and **`Effects`** (`effects.dfy`).
  - `HandleSpec` is one script request (`GetEffect`, `ApplyEffect`,
    `ClearEffect`) as a transition of the `current` slot.
  - `EffectsContext` is the engine as the source runs it. Its methods append
    native calls to `trace` and update `current`, and each is proved against
    its strategy function.
  - The class invariant ties the two together. `current` is `""` or a
    recognised name, and the window looks exactly as if only that effect had
    ever been applied to it.

The model follows the code where it differs from the design intent:

- `IsWin7Plus` compares the minor version with 6 and with 1 at once
  (`d3d9/src/renderer/effects.cc:78`). That disjunct can never hold, so the
  predicate is `major > 6` (`Versions.ClassifierFacts`). Windows 7 (6.1) and
  Windows 8 (6.2, 6.3) are therefore not offered the accent path. The engine
  layers keep this predicate, since they describe the behaviour as shipped; the
  intended test is defined beside it and compared with it (see "## Findings").
- An `ApplyEffect` request with an unknown name still clears the previous
  effect and leaves the slot empty (`d3d9/src/renderer/effects.cc:405-409`,
  `Handler.ApplyReplacesSlot`). It does not leave the slot untouched.
- Clearing on the accent path sends a disabled accent policy and does not reset
  the client-area margins (`d3d9/src/renderer/effects.cc:171-174`). This
  matters only for the "look": the accent path never extended them.
- The default tint `RGB(40, 40, 40)` replaces a zero tint before the acrylic
  alpha rule runs. So on the accent path (`unified`, or `acrylic` below build
  22621), with the accent setter resolved, an `acrylic` or `unified` request
  without a colour sends `0x01282828` (`Strategies.DefaultTintOnAccentPath`).
  From build 22621 on, `acrylic` takes the backdrop-type path and sends no
  colour. Without the setter nothing is sent.

## Model

| member | source | states |
|---|---|---|
| `HexColor.ParseHexColor` | d3d9/src/renderer/effects.cc:322-372 | The empty string and `"#"` give 0, and so does any input whose length after erasing one leading `#` is not 3, 4, 6 or 8 (`"##"` included). |
| `HexColor.LongForm` | d3d9/src/renderer/effects.cc:333-352 | For 6 and 8 digits, each channel is its digit pair read in base 16. Alpha is 0xFF for 6 digits and the last pair for 8. |
| `HexColor.ShortForm` | d3d9/src/renderer/effects.cc:354-367 | For 3 and 4 digits, each colour channel is its digit duplicated into both nibbles (digit × 17). Alpha is 0xFF for 3 digits and the fourth digit shifted into the high nibble only for 4. |
| `HexColor.ParseHexCharAgrees` | d3d9/src/renderer/effects.cc:356-362 | Upper-casing and then counting from `'A'` or `'0'` gives the value of every hex digit, lower or upper case. |
| `HexColor.PackChannels` | d3d9/src/renderer/effects.cc:370-371 | Each channel of the packed word is the low byte of the value given for it, and a word is repacked from its channels unchanged. |
| `HexColor.ExampleLongRed` | d3d9/src/renderer/effects.cc:322-372 | `"#FF0000"` parses to 0xFFFF0000. |
| `HexColor.ExampleShortRed` | d3d9/src/renderer/effects.cc:354-367 | `"F00"` parses to 0xFFFF0000. |
| `HexColor.ExampleShortAlpha` | d3d9/src/renderer/effects.cc:364-365 | `"F008"` parses to 0x80FF0000: the alpha digit is shifted, not duplicated. |
| `HexColor.ExampleSentinels` | d3d9/src/renderer/effects.cc:324-333 | `""`, `"#"` and `"##"` all parse to 0. |
| `HexColor.ExampleTransparentBlack` | d3d9/src/renderer/effects.cc:333-352 | `"00000000"` parses to 0, the same word as the failure sentinel. |
| `Versions.IsWin7Plus` | d3d9/src/renderer/effects.cc:76-79 | No contract: the reference definition of the Windows 7 test as written, `major > 6 \|\| (minor == 6 && minor == 1)`. |
| `Versions.IsWin10_20H1` | d3d9/src/renderer/effects.cc:81-84 | No contract: the reference definition of the 20H1 test, `19041 <= build < 22000`. |
| `Versions.IsWin10_1809` | d3d9/src/renderer/effects.cc:86-89 | No contract: the reference definition of the 1809 test, `17763 <= build < 22000`. |
| `Versions.IsWin11` | d3d9/src/renderer/effects.cc:91-94 | No contract: the reference definition of the Windows 11 test, `build >= 22000`. |
| `Versions.IsWin11_22H2` | d3d9/src/renderer/effects.cc:96-99 | No contract: the reference definition of the 22H2 test, `build >= 22621`. |
| `VersionCache.VersionOracle.constructor` | d3d9/src/renderer/effects.cc:58 | The cache starts as three zeros and no query has been made. |
| `VersionCache.VersionOracle.WinVer` | d3d9/src/renderer/effects.cc:56-74 | Returns component `index` of the reported triple, or 0 for `index >= 3` with no query. After any `index < 3` the cache holds the triple. While `version[0]` is 0 one query fills the cache; once it is non-zero the cache answers and nothing changes. The query runs at most once when the major version is non-zero. |
| `VersionCache.VersionOracle.IsWin7Plus` | d3d9/src/renderer/effects.cc:76-79 | Equals the as-written predicate on the reported triple, through the source's short-circuit reads of the cache, and leaves the cache filled. |
| `VersionCache.VersionOracle.IsWin10_20H1` | d3d9/src/renderer/effects.cc:81-84 | Equals `19041 <= build < 22000`, and leaves the cache filled. |
| `VersionCache.VersionOracle.IsWin10_1809` | d3d9/src/renderer/effects.cc:86-89 | Equals `17763 <= build < 22000`, and leaves the cache filled. |
| `VersionCache.VersionOracle.IsWin11` | d3d9/src/renderer/effects.cc:91-94 | Equals `build >= 22000`, and leaves the cache filled. |
| `VersionCache.VersionOracle.IsWin11_22H2` | d3d9/src/renderer/effects.cc:96-99 | Equals `build >= 22621`, and leaves the cache filled. |
| `Versions.ClassifierFacts` | d3d9/src/renderer/effects.cc:76-99 | `IsWin7Plus` holds exactly when major > 6. 22H2 implies Windows 11, and 20H1 implies 1809. Windows 11 excludes both Windows 10 tiers. |
| `Versions.IsWin7PlusIntended` | d3d9/src/renderer/effects.cc:76-79 | No contract: the reference definition of the Windows 7 test as evidently intended, version 6.1 or later by (major, minor). |
| `Versions.Win7PlusDiscrepancy` | d3d9/src/renderer/effects.cc:76-79 | The written and the intended Windows 7 tests disagree exactly when major is 6 and minor is at least 1, and the written test never admits a version the intended one refuses. |
| `Versions.Windows7Refused` | d3d9/src/renderer/effects.cc:76-79 | Windows 7 SP1 (6.1.7601) fails the written test and passes the intended one. |
| `Versions.IntendedByRelease` | d3d9/src/renderer/effects.cc:76-79 | The intended test admits Windows 7, 8, 8.1 and 10, refuses Vista, and never refuses a later (major, minor) than one it admits. |
| `Effects.EffectsContext.constructor` | d3d9/src/renderer/effects.cc:374-376 | A fresh engine has an empty slot, no native call made, a cache not yet filled, and satisfies the invariant. |
| `Effects.EffectsContext.ExtendClientArea` | d3d9/src/renderer/effects.cc:101-105 | Appends exactly one `Extend` call. |
| `Effects.EffectsContext.ResetClientArea` | d3d9/src/renderer/effects.cc:107-111 | Appends exactly one `Reset` call. |
| `Effects.EffectsContext.SetWindowAttribute` | d3d9/src/renderer/effects.cc:146-147 | Appends exactly one write of the given attribute and value, as each `DwmSetWindowAttribute` call of the strategies does. |
| `Effects.EffectsContext.SetAccentPolicy` | d3d9/src/renderer/effects.cc:113-138 | Appends the accent-policy events: none without the setter, otherwise one policy with the acrylic colour rule and flags. |
| `Native.NoBackdropAlike` | d3d9/src/renderer/effects.cc:165-167 | The look never holds `DWMSBT_AUTO`: it reads both the default 0 and the `DWMSBT_DISABLE` that the clears write as "no backdrop", and keeps every other backdrop type as is. |
| `Native.DefaultBackdropIsNeutral` | d3d9/src/renderer/effects.cc:265-268 | A window whose only write set the backdrop type to the default 0 or to `DWMSBT_DISABLE` looks like a fresh window. |
| `Strategies.AccentPolicyEvents` | d3d9/src/renderer/effects.cc:113-138 | No contract: the reference definition of `SetAccentPolicy`'s calls, none without the setter and one policy otherwise. |
| `Strategies.AccentPolicy` | d3d9/src/renderer/effects.cc:119-136 | No contract: the reference definition of the policy sent, flags 0 and the acrylic colour rule for the acrylic state, flags 2 and the colour as given otherwise. |
| `Strategies.AcrylicColor` | d3d9/src/renderer/effects.cc:120-124 | No contract: the reference definition of the acrylic colour rule, a zero alpha byte raised to 1. |
| `Strategies.ApplyAcrylicSpec` | d3d9/src/renderer/effects.cc:140-159 | No contract: the reference definition of `ApplyAcrylic`'s result and calls for a version triple. |
| `Strategies.ClearAcrylicSpec` | d3d9/src/renderer/effects.cc:161-175 | No contract: the reference definition of `ClearAcrylic`'s calls for a version triple. |
| `Strategies.ThemeEvents` | d3d9/src/renderer/effects.cc:205-239 | No contract: the reference definition of the calls of `ForceDarkTheme` (value 1) and `ForceLightTheme` (value 0). |
| `Strategies.ApplyMicaSpec` | d3d9/src/renderer/effects.cc:241-260 | No contract: the reference definition of `ApplyMica`'s result and calls for a version triple. |
| `Strategies.ClearMicaSpec` | d3d9/src/renderer/effects.cc:262-277 | No contract: the reference definition of `ClearMica`'s calls for a version triple. |
| `Strategies.ApplyEffectSpec` | d3d9/src/renderer/effects.cc:280-295 | No contract: the reference definition of `ApplyEffect`'s dispatch by window and name. |
| `Strategies.ClearEffectSpec` | d3d9/src/renderer/effects.cc:297-319 | No contract: the reference definition of `ClearEffect`'s dispatch by window and name. |
| `Strategies.AcrylicAlphaForced` | d3d9/src/renderer/effects.cc:119-132 | The acrylic state never sends a zero alpha. A zero alpha becomes 1 and the colour bits are kept; any other alpha is sent unchanged. Flags are 0. |
| `Strategies.RaisedAlpha` | d3d9/src/renderer/effects.cc:120-124 | `color \| 1 << 24` on a zero-alpha colour has alpha 1 and the same low 24 bits. A non-zero alpha leaves the colour alone. |
| `Strategies.AccentPassThrough` | d3d9/src/renderer/effects.cc:115-132 | Non-acrylic states send the colour unchanged with flags 2. Without the setter nothing is sent. |
| `Effects.EffectsContext.ApplyAcrylic` | d3d9/src/renderer/effects.cc:140-159 | The result and appended events are the acrylic strategy's for the oracle's version, and the oracle stays consistent. |
| `Strategies.AcrylicByVersion` | d3d9/src/renderer/effects.cc:140-159 | Non-unified acrylic from build 22621 on sends `Extend` and attribute 38 = 3. Otherwise, from major 7 on, it succeeds with exactly one accent of state 4 (acrylic blur-behind) or 3 (blur-behind) when the setter is present, and with no call when it is not. Otherwise it fails with no call. |
| `Strategies.DefaultTintOnAccentPath` | d3d9/src/renderer/effects.cc:148-154 | On the accent path a zero tint becomes 0x00282828, sent as 0x01282828 for acrylic (alpha raised) and as is with flags 2 for blur-behind. |
| `Effects.EffectsContext.ClearAcrylic` | d3d9/src/renderer/effects.cc:161-175 | The appended events are the acrylic clear's for the oracle's version. |
| `Strategies.AcrylicClearByVersion` | d3d9/src/renderer/effects.cc:161-175 | Non-unified from build 22621 on it sends `Reset` and attribute 38 = 1. Otherwise, from major 7 on with the setter, it sends a disabled accent with colour 0. Otherwise it sends nothing. |
| `Effects.EffectsContext.ForceDarkTheme` | d3d9/src/renderer/effects.cc:205-221 | Appends the theme events with value 1 and keeps the invariant: the window's effect is unchanged. |
| `Effects.EffectsContext.ForceLightTheme` | d3d9/src/renderer/effects.cc:223-239 | Appends the theme events with value 0 and keeps the invariant. |
| `Strategies.ThemeByBuild` | d3d9/src/renderer/effects.cc:205-239 | From build 19041 on attribute 20 is set, from 17763 to 19040 attribute 19, and before that nothing. Dark and light differ only in the value. |
| `Strategies.ThemeKeepsLook` | d3d9/src/renderer/effects.cc:205-239 | Forcing a theme never changes the window's backdrop look. |
| `Effects.EffectsContext.ApplyMica` | d3d9/src/renderer/effects.cc:241-260 | The result and appended events are Mica's strategy for the oracle's version. |
| `Strategies.MicaByBuild` | d3d9/src/renderer/effects.cc:241-260 | From build 22621 on Mica sends `Extend` and attribute 38 = 2. From 22000 it sends `Extend` and attribute 1029 = 2. Before that it fails with no call. |
| `Effects.EffectsContext.ClearMica` | d3d9/src/renderer/effects.cc:262-277 | The appended events are Mica's clear for the oracle's version. |
| `Strategies.MicaClearByBuild` | d3d9/src/renderer/effects.cc:262-277 | From build 22621 on it sends `Reset` and attribute 38 = 1. From 22000 it sends `Reset` and attribute 1029 = 0. Before that it sends nothing. |
| `Strategies.MicaPairRestores` | d3d9/src/renderer/effects.cc:241-277 | On one version, Mica's clear undoes Mica's apply: a window with no effect looks the same again. |
| `Strategies.AcrylicPairRestores` | d3d9/src/renderer/effects.cc:140-175 | With the same version and `unified` flag, the acrylic clear undoes the acrylic apply. |
| `Effects.EffectsContext.ApplyEffect` | d3d9/src/renderer/effects.cc:280-295 | The result and appended events are the name dispatch's: false and no call without a window or for an unknown name. |
| `Strategies.ApplySucceedsExactly` | d3d9/src/renderer/effects.cc:280-295 | An apply succeeds iff there is a window and one of these holds: Mica on Windows 11; acrylic from 22H2 or major 7; unified or blur-behind from major 7. |
| `Strategies.NothingBelowFloor` | d3d9/src/renderer/effects.cc:280-295 | Below major 7 and build 22000 every apply fails with no call. |
| `Strategies.ShownIsApplied` | d3d9/src/renderer/effects.cc:280-295 | Applying a name to a fresh window produces exactly the look `Shown` describes. |
| `Strategies.ApplyIsVisible` | d3d9/src/renderer/effects.cc:280-295 | An applied effect changes the window's look iff the apply made a call. |
| `Effects.EffectsContext.ClearEffect` | d3d9/src/renderer/effects.cc:297-319 | The result and appended events are the clear dispatch's; `unified` and `blurbehind` share the unified clear. |
| `Strategies.ClearSucceedsExactly` | d3d9/src/renderer/effects.cc:297-319 | A clear succeeds iff there is a window and the name is one of the four recognised names. |
| `Strategies.FailureIsSilent` | d3d9/src/renderer/effects.cc:280-319 | A failed apply and a failed clear make no native call. |
| `Strategies.ApplyThenClearRestores` | d3d9/src/renderer/effects.cc:280-319 | For every name, applying and then clearing it on the same version leaves a window with no effect looking as it did. |
| `Strategies.ClearRestores` | d3d9/src/renderer/effects.cc:297-319 | Clearing the effect a window shows leaves it looking like a window with no effect. |
| `Strategies.ReplaceEffect` | d3d9/src/renderer/effects.cc:405-409 | Clearing the shown effect and applying another leaves exactly the new one visible, with nothing left of the old. |
| `Handler.HandleSpec` | d3d9/src/renderer/effects.cc:374-424 | No contract: the reference definition of one `HandleWindowEffect` request as handled flag, reply, new slot and native calls. |
| `Handler.SlotStaysRecognised` | d3d9/src/renderer/effects.cc:374-424 | After any request the slot is `""` or a recognised name, and it is `""` when there is no window. |
| `Handler.RequestsThatChangeNothing` | d3d9/src/renderer/effects.cc:378-387 | GetEffect reports the slot and changes nothing. ApplyEffect without a string name answers false and changes nothing. A request with any other function name is not handled and changes nothing, whatever its arguments. |
| `Handler.ApplyReplacesSlot` | d3d9/src/renderer/effects.cc:405-409 | With a window, ApplyEffect clears the old effect first, then answers whether the apply succeeded. The slot holds the name on success and `""` otherwise, unknown names included. |
| `Handler.ClearTwiceIsQuiet` | d3d9/src/renderer/effects.cc:415-421 | ClearEffect always empties the slot. With an empty slot it makes no call, so a second ClearEffect is silent. |
| `Handler.ApplyRequestShowsSlot` | d3d9/src/renderer/effects.cc:405-409 | On a window showing the slot's effect, an ApplyEffect request leaves it showing the new slot's effect with the request's tint. |
| `Handler.ClearRequestShowsNothing` | d3d9/src/renderer/effects.cc:415-421 | On a window showing the slot's effect, a ClearEffect request leaves it showing none. |
| `Effects.EffectsContext.GetEffect` | d3d9/src/renderer/effects.cc:378-382 | Replies with the slot, as `HandleSpec` says. |
| `Effects.EffectsContext.ApplyEffectRequest` | d3d9/src/renderer/effects.cc:383-414 | Reply, new slot and appended calls are `HandleSpec`'s, and the invariant is kept. |
| `Effects.EffectsContext.ReplaceSlot` | d3d9/src/renderer/effects.cc:405-409 | Appends the clear of the old slot followed by the apply of the name. The slot ends holding the name on success and `""` otherwise, and the invariant is kept. |
| `Effects.EffectsContext.ClearSlot` | d3d9/src/renderer/effects.cc:405-406 | After clearing the old slot's effect the slot is empty and the window shows no effect. |
| `Effects.EffectsContext.ApplyToEmptySlot` | d3d9/src/renderer/effects.cc:408-409 | On a window showing no effect, the apply's events are appended, the slot holds the name iff it succeeded, and the window shows that effect. |
| `Effects.EffectsContext.ClearEffectRequest` | d3d9/src/renderer/effects.cc:415-421 | The new slot and appended calls are `HandleSpec`'s, and the window shows no effect. |
| `Effects.EffectsContext.HandleWindowEffect` | d3d9/src/renderer/effects.cc:374-424 | Every request is answered as `HandleSpec` says: handled flag, reply, new slot and native calls. The invariant is kept. |

## Left out

- `d3d9/src/browser/devtools.cc` is not part of this model. It holds HTTP on a thread, shell and window calls, and browser handler tables.
- `IsWindowsLightTheme` is not modelled: it is a registry read.
- Resolving native functions by name (`_GetFunction`, `RtlGetVersion`, `SetWindowCompositionAttribute`) is a foreign call. The version triple is an input and "the setter could be resolved" is a boolean of the context. A failed `RtlGetVersion` lookup is not modelled.
- What the native calls do to the screen is not modelled. They are events, and only what they leave on an abstract window is tracked.
- Script value marshalling is reduced to `Option<string>` for the name and for the `color` key of the options object. Replies are a small datatype.
- `HexColor.ParseHexColor`: requires every character of a 3-, 4-, 6- or 8-character body to be a hex digit. What `wcstol` and the short-form digit rule do with other characters (signs, `0x` prefixes, stray letters) is not modelled.
- `Effects.EffectsContext.HandleWindowEffect`: requires the colour, when given, to be well formed in the same sense.
- `Effects.EffectsContext.ApplyEffectRequest`: requires the colour, when given, to be well formed in the same sense.
- `Handler.HandleSpec`: requires the colour, when given, to be well formed in the same sense.
- `Handler.TintOf`: requires the colour, when given, to be well formed in the same sense.
- Treating `DWMSBT_AUTO` (0), the backdrop type of a fresh window, and `DWMSBT_DISABLE` (1), the one the 22H2 clears write, alike as "no backdrop" is an assumption of the model. The two values are different attribute states, and what the system shows for `DWMSBT_AUTO` is its own choice, which is not modelled.
- The client window is fixed per engine (`windowPresent`), and the themes write to that same window; the source passes a window handle to the theme functions.
- The source's native calls are not atomic with respect to other threads. Concurrency is not modelled.

## Findings

| source | as written | input that shows it | evidently intended | confidence | as-written member | corrected member |
|---|---|---|---|---|---|---|
| d3d9/src/renderer/effects.cc:76-79 | `IsWin7Plus` tests `WinVer(1) == 6 && WinVer(1) == 1`, which no minor version meets, so only major > 6 passes | Windows 7 SP1, version 6.1.7601: the test answers false | `major > 6 \|\| (major == 6 && minor >= 1)`, so Windows 7, 8 and 8.1 take the accent path | high, not executed | `Versions.Windows7Refused` (with `Versions.Win7PlusDiscrepancy`) | `Versions.IsWin7PlusIntended`, property `Versions.IntendedByRelease` |

The engine layers (`Strategies`, `Effects`) keep the as-written test: they
describe what the shipped code does on each Windows version.
