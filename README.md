# Video playlist and audio player widgets, modelled in Dafny

Two browser widgets of a style guide, with the DOM and the media engine abstracted away.

**VideoPlaylistModule** (`video_playlist.dfy`, module `VideoPlaylist`) holds a fixed list of
playlist items, each with an `is-current` flag, and one active video slot. Loading an item puts
its template in the slot and rewrites every item's flag so that only that item is current. A
click on an item loads it unless it is already current. When the video ends, the widget scans
for the first current item and loads the next one, with no wrap-around at the end. Scroll
buttons are disabled when the items container sits at the matching edge, and a click on a
disabled button does not scroll. The expand toggle only ever clears `data-clipped`. The class
`VideoPlaylistModule` keeps the flags in an `array<bool>`. The slot is an `Option<nat>`
naming the item whose template it holds. Each button direction has an `array<bool>` of
`disabled` flags. A ghost field remembers the container metrics the buttons were computed from.

**AudioPlayer** (`audio_player.dfy`, module `AudioPlayer`) has two parts.
- The duration text: whole hours and minutes of a duration in seconds, each shown as
  `<n> <abbreviation>` only when it is not zero, hours first, joined with `","`. There is no
  value before the metadata is loaded. The model proves minutes are below 60 and that hours
  and minutes bracket the duration. It also proves that the text can be read back into the
  hours and minutes it was made from, when the two abbreviations differ and hold no comma.
- The page-wide protocol: `play()` broadcasts `AudioPlayer:play`, which is delivered
  synchronously to every player's document listener. Every player other than the sender
  pauses itself. Then the sender starts its own audio. The class `Page` holds an
  `array<Player>` and a trace of broadcasts and audio calls, so the order of those steps is
  part of each method's contract.

`strings.dfy` (module `Strings`) models the two JavaScript built-ins the text is made with: a
whole number's decimal numeral and `Array.prototype.join`. Each has an inverse (`ParseDecimal`,
`Split`) and a round-trip lemma.

Two behaviours of the code are easy to miss:
- `getFormatedDuration` joins the parts with `join()`, whose default separator is `","`. So
  3661 seconds gives `"1 <h>,1 <min>"`, not `"1 <h>1 <min>"`.
- The `ended` handler loads the first item when no item is current. This happens because
  `findIndex` returns -1 and -1 < N - 1 whenever N ≥ 1. Nothing happens only for an empty
  list.

## Model

| member | source | states |
|---|---|---|
| `VideoPlaylist.MarkedCurrentSet` | frontend/bundles/bundle-default/styleguide/video/VideoPlaylistModule.js:147-155 | After `setState(index)` the current items are exactly `{index}` when `0 <= index < N`, and none otherwise (for example -1 from `indexOf`). So at most one item is current whatever the argument. |
| `VideoPlaylist.VideoPlaylistModule.SetState` | frontend/bundles/bundle-default/styleguide/video/VideoPlaylistModule.js:147-155 | The loop leaves the flags equal to `Marked(N, index)`, whatever they were before. A second call with the same index therefore changes nothing (idempotent). |
| `VideoPlaylist.VideoPlaylistModule.LoadPlaylistItem` | frontend/bundles/bundle-default/styleguide/video/VideoPlaylistModule.js:136-145 | The slot holds item k's template and k is the single current item. |
| `VideoPlaylist.VideoPlaylistModule.ClickItem` | frontend/bundles/bundle-default/styleguide/video/VideoPlaylistModule.js:77-85 | A click on a current item changes neither the flags nor the slot. A click on any other item makes it the single current item and puts it in the slot. Both "at most one current" and "the slot shows the current item" are preserved. |
| `VideoPlaylist.FirstCurrent` | frontend/bundles/bundle-default/styleguide/video/VideoPlaylistModule.js:51-57 | `findIndex` over the flags: -1 exactly when no item is current, otherwise a current item with no current item before it. |
| `VideoPlaylist.VideoPlaylistModule.FindCurrent` | frontend/bundles/bundle-default/styleguide/video/VideoPlaylistModule.js:51-57 | The linear scan returns `FirstCurrent` of the flags. |
| `VideoPlaylist.EndedTarget` | frontend/bundles/bundle-default/styleguide/video/VideoPlaylistModule.js:50-61 | The item `ended` loads, when there is one, is an item of the list. |
| `VideoPlaylist.VideoPlaylistModule.Ended` | frontend/bundles/bundle-default/styleguide/video/VideoPlaylistModule.js:50-61 | When `EndedTarget` names an item, it becomes the single current item and fills the slot. Otherwise flags and slot are unchanged. Both invariants are preserved. |
| `VideoPlaylist.EndedAdvances` | frontend/bundles/bundle-default/styleguide/video/VideoPlaylistModule.js:59-61 | With item i < N-1 current, `ended` loads item i+1. |
| `VideoPlaylist.EndedStopsAtLast` | frontend/bundles/bundle-default/styleguide/video/VideoPlaylistModule.js:59-61 | With the last item current, `ended` loads nothing: no wrap-around. |
| `VideoPlaylist.EndedWithoutCurrent` | frontend/bundles/bundle-default/styleguide/video/VideoPlaylistModule.js:51-61 | With no item current, `ended` loads item 0 of a non-empty list and nothing from an empty one. |
| `VideoPlaylist.EndedTargetFromPredecessor` | frontend/bundles/bundle-default/styleguide/video/VideoPlaylistModule.js:50-61 | When at most one item is current, `ended` loads item k ≥ 1 exactly when item k-1 is current. |
| `VideoPlaylist.BackwardDisabledAtStart` | frontend/bundles/bundle-default/styleguide/video/VideoPlaylistModule.js:112-122 | For offsets in range, backward buttons are disabled exactly when both scroll offsets are 0. |
| `VideoPlaylist.ForwardDisabledAtEnd` | frontend/bundles/bundle-default/styleguide/video/VideoPlaylistModule.js:112-127 | For offsets in range, forward buttons are disabled exactly when both offsets are at their maximum. |
| `VideoPlaylist.VideoPlaylistModule.SetScrollState` | frontend/bundles/bundle-default/styleguide/video/VideoPlaylistModule.js:112-127 | Every backward button gets `disabled` iff `max(scrollLeft, scrollTop) = 0`. Every forward button gets `disabled` iff the larger remaining distance is 0. All buttons of one direction get the same value. This is also the `scroll` handler (lines 64-66). |
| `VideoPlaylist.VideoPlaylistModule.ClickScrollButton` | frontend/bundles/bundle-default/styleguide/video/VideoPlaylistModule.js:87-109 | A click asks for a scroll exactly when the button is not disabled. That is, exactly when the container was away from that edge at the last recomputation. |
| `VideoPlaylist.VideoPlaylistModule.ToggleExpand` | frontend/bundles/bundle-default/styleguide/video/VideoPlaylistModule.js:70-75 | The toggle only clears `data-clipped` (through the `clipped` setter, lines 8-12), so repeated clicks are idempotent. |
| `VideoPlaylist.VideoPlaylistModule.constructor` | frontend/bundles/bundle-default/styleguide/video/VideoPlaylistModule.js:36-43 | `connectedCallback`: the items are snapshotted with their flags, the slot holds the server-rendered player, and the buttons reflect the initial metrics. |
| `Strings.Decimal` | frontend/bundles/bundle-default/styleguide/audio/AudioPlayer.js:106 | `${n}` of a whole number is a non-empty string of digits with no leading zero. |
| `Strings.ParseDecimalOfDecimal` | frontend/bundles/bundle-default/styleguide/audio/AudioPlayer.js:105-111 | Reading the numeral back gives the number. |
| `Strings.SplitOfJoin` | frontend/bundles/bundle-default/styleguide/audio/AudioPlayer.js:113 | Splitting `parts.join(sep)` at `sep` gives the parts back when no part holds `sep`. |
| `AudioPlayer.Hours` | frontend/bundles/bundle-default/styleguide/audio/AudioPlayer.js:102 | `hours * 3600 <= d < hours * 3600 + 3600`. |
| `AudioPlayer.Minutes` | frontend/bundles/bundle-default/styleguide/audio/AudioPlayer.js:103 | `0 <= minutes <= 59` and `hours * 3600 + minutes * 60 <= d`, less than a minute short of d. |
| `AudioPlayer.HoursMinutesUnique` | frontend/bundles/bundle-default/styleguide/audio/AudioPlayer.js:102-103 | Any pair with minutes below 60 that brackets d to the minute is (hours, minutes). |
| `AudioPlayer.FormattedDuration` | frontend/bundles/bundle-default/styleguide/audio/AudioPlayer.js:98-114 | No value exactly when `readyState < HAVE_METADATA`. Otherwise the text is empty exactly when d < 60. |
| `AudioPlayer.FormattedDurationExamples` | frontend/bundles/bundle-default/styleguide/audio/AudioPlayer.js:101-113 | 3661 → `"1 <h>,1 <min>"`, 61 → `"1 <min>"`, 7200 → `"2 <h>"`, 59 → `""`, and no value before the metadata. |
| `AudioPlayer.ParseUnitOfUnit` | frontend/bundles/bundle-default/styleguide/audio/AudioPlayer.js:105-111 | A part `<n> <abbreviation>` reads back as n. |
| `AudioPlayer.ParseUnitOtherAbbreviation` | frontend/bundles/bundle-default/styleguide/audio/AudioPlayer.js:105-111 | A part made with one abbreviation is never read as a part with a different abbreviation. |
| `AudioPlayer.UnitHasNoComma` | frontend/bundles/bundle-default/styleguide/audio/AudioPlayer.js:105-113 | A part holds no comma when its abbreviation holds none. |
| `AudioPlayer.DecodeFormattedDuration` | frontend/bundles/bundle-default/styleguide/audio/AudioPlayer.js:101-113 | Once metadata is loaded, the text reads back as (hours, minutes) when the abbreviations differ and hold no comma. The reader refuses any part with count 0 and takes hours before minutes, so the text holds a unit only when it is non-zero, hours first. |
| `AudioPlayer.DecodeRefusesZeroUnit` | frontend/bundles/bundle-default/styleguide/audio/AudioPlayer.js:105-111 | For any count n and comma-free abbreviations, none of these texts is read as a duration: a lone `0 <h>` or `0 <min>`, or two parts with 0 in the hours place or in the minutes place. So a text with a zero-count part is never one the player writes. |
| `AudioPlayer.SameTextSameHoursMinutes` | frontend/bundles/bundle-default/styleguide/audio/AudioPlayer.js:101-113 | Two durations with the same text have the same hours and minutes. |
| `AudioPlayer.AfterPlayOnlyOne` | frontend/bundles/bundle-default/styleguide/audio/AudioPlayer.js:64-67 | After player i plays, i is the only player whose audio is not paused, and nothing but `paused` has changed. |
| `AudioPlayer.MirroredAfterPlay` | frontend/bundles/bundle-default/styleguide/audio/AudioPlayer.js:69-71 | Once every player has handled its native play or pause event, only player i shows `playing`. |
| `AudioPlayer.PauseOthersPauses` | frontend/bundles/bundle-default/styleguide/audio/AudioPlayer.js:64-67 | The play broadcast pauses every listening player except its sender, and never the sender. |
| `AudioPlayer.PauseOthersOnly` | frontend/bundles/bundle-default/styleguide/audio/AudioPlayer.js:64-67 | Delivering the broadcast only emits pause broadcasts and pauses audio: it never starts audio or broadcasts play. |
| `AudioPlayer.PlayActionsOrder` | frontend/bundles/bundle-default/styleguide/audio/AudioPlayer.js:82-85 | `play()` emits `AudioPlayer:play` first and starts its own audio last, and never pauses itself. |
| `AudioPlayer.Page.constructor` | frontend/bundles/bundle-default/styleguide/audio/AudioPlayer.js:23-34 | Each player connects and renders its duration text. |
| `AudioPlayer.Page.Render` | frontend/bundles/bundle-default/styleguide/audio/AudioPlayer.js:92-96 | The duration element gets the formatted duration (no value before the metadata). Without a duration element nothing changes. |
| `AudioPlayer.Page.LoadedMetadata` | frontend/bundles/bundle-default/styleguide/audio/AudioPlayer.js:59-62 | `loadedmetadata` renders the text for the reported ready state and duration. |
| `AudioPlayer.Page.Pause` | frontend/bundles/bundle-default/styleguide/audio/AudioPlayer.js:87-90 | Broadcasts `AudioPlayer:pause`, then pauses the audio. It preserves "at most one player unpaused". |
| `AudioPlayer.Page.PlayBroadcastReceived` | frontend/bundles/bundle-default/styleguide/audio/AudioPlayer.js:64-67 | A listener pauses itself unless it sent the broadcast, in which case nothing changes. |
| `AudioPlayer.Page.Play` | frontend/bundles/bundle-default/styleguide/audio/AudioPlayer.js:82-85 | The new state is `AfterPlay`: player i is the only unpaused player. The trace is the broadcast, then each other player's pause, in listener order, then i's own audio start. |
| `AudioPlayer.Page.PlayPause` | frontend/bundles/bundle-default/styleguide/audio/AudioPlayer.js:74-80 | Takes the play path exactly when the audio is paused, otherwise the pause path. Either way `paused` flips, and "at most one unpaused" is preserved. |
| `AudioPlayer.Page.MediaPlayOrPause` | frontend/bundles/bundle-default/styleguide/audio/AudioPlayer.js:69-71 | The native play/pause handler sets `playing` to `!paused`. |

## Left out

- `SectionNavigation.js`: it is a single `window.location.replace` call on a select change. That is browser navigation with no logic to state.
- The Java files (`AttachmentFileSubstitution`, `DynamicPodcastEpisodeItemStreamAllMatch`, `ListicleAlteration`): they are getters over framework classes and annotated fields. AttachmentFileSubstitution's only logic calls into a storage and a file-size library, neither of which is part of this model.
- Scroll amounts: the `scrollBy` distances (±0.67 of the client extents) and smooth scrolling are floating point and native behaviour. `ClickScrollButton` only says whether a scroll is requested.
- Scroll metrics are whole pixels. Browsers report fractional offsets, and negative `scrollLeft` in right-to-left containers. `BackwardDisabledAtStart` and `ForwardDisabledAtEnd` assume offsets within range.
- `getVideoUri` (VideoPlaylistModule.js:129-134) serialises through `URLSearchParams` and is not called anywhere in the file. The `fragmentUri` and `fragmentParams` getters (lines 28-34) are read only by it.
- The `overflowing` accessors: nothing uses them.
- Template cloning and `replaceChild`: the slot is abstracted to "holds the template of item k".
- The lazily registered `ready` listener and its `event.target.play()` call: they belong to the external video player module.
- DOM structure failures (a missing container, template or audio element): these are runtime exceptions in the source, not modelled.
- Events: `CustomEvent` bubbling to `document` and click delegation through `matches`/`closest` are modelled as direct method calls. Each player's document listener is taken in connection order.
- The media engine: `audio.play()` returns a promise that may reject, and such a rejection is not modelled. Native `play`/`pause` events are queued asynchronously and fire only when `paused` actually changes. The model offers `MediaPlayOrPause` as a separate call instead. Ready-state transitions are reported through `LoadedMetadata`.
- Duration: it is a whole number of seconds. A fractional part does not change the floors. NaN or Infinity durations are not modelled, nor is the exponent notation `${n}` uses from 10^21 on.
- A missing abbreviation attribute would appear as the text `null`. Abbreviations are modelled as plain strings.
- `Page.Render` records the value assigned to `innerText`, with `None` standing for `undefined`. How the browser converts `undefined` to text is not modelled.
