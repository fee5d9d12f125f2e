# Slide presentation navigator — a Dafny model

This project models the logic of a browser slide presentation script
(`script.js`): a deck of 16 slides, moved through by buttons, dots, keys,
swipes, an optional auto-advance interval and a small public API. The
logic is:

- the **navigator**, which keeps the current slide index and an animation
  lock, and moves between slides in a timed hide-then-show transition;
- the **input rules** that turn key presses and touch gestures into
  navigation requests;
- three small **widgets**: single-selection card groups, the Intel tier
  power-bar widths, and the RAM slider's configuration lookup with its
  five-star rating.

Modules:

- `Navigation` (navigation.dfy): the navigator as a pure state machine.
  `goToSlide`'s two nested timer callbacks are explicit pending steps
  (`Phase`: `Idle`, `PendingReveal(target)`, `PendingUnlock`), fired one at a
  time by the `TimerFires` event, so no clock is involved. Which slide
  elements exist in the document is the parameter `slides`. `Run` applies a
  sequence of events; the lemmas about it are the navigator's properties.
- `NavigatorClass` (navigator.dfy): class `Navigator`, whose fields are the
  script's globals plus the visible state (the slides carrying the
  "active" marker, the dots as an `array<bool>`, the two button
  opacities). Each method's new `State()` is the matching `Navigation`
  function of the old state; `Step()` runs the pending callback.
- `Input` (input.dfy): the keyboard map, the swipe decision and the touch
  handlers' start-point tracker (a class, since the handlers share two
  mutable variables).
- `Widgets` (widgets.dfy): the selection loop on an array of booleans, the
  power-bar width switch, the RAM table and the star-building loop.
- `Options` (options.dfy): the `Option` type used by `Input` and `Widgets`.

Two behaviours of the source are kept as written:

- `goToSlide(i)` sets the index and the lock before it looks for the
  element `slide-i`. When that element does not exist (for example
  `goToSlide(20)` through the public API), no callback is scheduled, so the
  lock is never released and every later navigation is ignored. The index
  stays 20. It is not "ignored" or clamped. `MissingSlideLocksForever` and
  `GoToTwentyExample` state this. When every slide exists and only valid
  indices are requested, this cannot happen (`NeverStuckWhenAllSlidesExist`).
- The `touchend` handler returns early when a recorded start coordinate is
  0. On that path it does not reset the start point; the reset to (0, 0)
  happens only after a gesture passes that test
  (`Input.TouchTracker.TouchEnd`).

## Model

| member | source | states |
|---|---|---|
| `Navigation.GoToSlide` | script.js:85-112 | While locked, or for the current index, nothing changes. Otherwise the index is set at once, the lock is taken, and the current slide loses its marker if its element exists. The reveal step is pending exactly when the target slide exists; otherwise nothing is pending. Every other slide keeps its marker. |
| `Navigation.Initial` | script.js:21-24 | The state after load: index 0, lock free, nothing pending. Slide 0 is the only slide that can be active, and it is active exactly when its element exists. |
| `Navigation.Perform` | script.js:43-48 | A button, dot, key or swipe command is ignored while locked. From a valid index, a command that targets only valid indices leads to a valid index. |
| `Navigation.NextSlide` | script.js:71-76 | No change while locked or at the last slide (no wraparound); otherwise a transition to `current + 1`. The index moves by at most +1. |
| `Navigation.PreviousSlide` | script.js:78-83 | No change while locked or at slide 0 (no wraparound); otherwise a transition to `current - 1`. The index moves by at most -1. |
| `Navigation.AutoAdvance` | script.js:807-813 | Before the last slide a tick is `nextSlide`; at the last slide it is `goToSlide(0)`, which, when unlocked, moves to 0. This is the only wraparound. |
| `Navigation.Step` | script.js:102-110 | The reveal callback marks its target active and schedules the unlock with the lock still held. The unlock callback clears the lock. With nothing pending, nothing changes. |
| `Navigation.Apply` | script.js:72-86 | While the lock is held, every request and tick leaves the state unchanged; only the pending timer callback acts. |
| `Navigation.StuckForever` | script.js:97-111 | A state with the lock held and no callback pending is unchanged by every later sequence of events. |
| `Navigation.MissingSlideLocksForever` | script.js:88-111 | Going to a slide without an element sets the index and the lock, and no later events ever change the resulting state. |
| `Navigation.TransitionCompletes` | script.js:88-110 | For an existing target: after the request the index is the target, the lock is held and the reveal is pending. After the first callback the target is active and the lock is still held. Only after the second callback is the lock free. |
| `Navigation.InitialInv` | script.js:21-24 | The page-load state (index 0, unlocked, slide 0 shown if present) satisfies the navigator invariant. |
| `Navigation.GoToSlidePreservesInv` | script.js:85-112 | `goToSlide` keeps the navigator invariant, for existing and missing targets alike. |
| `Navigation.ApplyPreservesInv` | script.js:71-112 | Every event preserves the invariant: with the lock free nothing is pending and only the current slide is active; during the reveal wait no slide is active; a held lock with nothing pending means the index names a missing slide. |
| `Navigation.RunPreservesInv` | script.js:71-112 | The invariant holds after any sequence of events. |
| `Navigation.InvAtMostOneActive` | script.js:90-104 | Under the invariant, at most one slide is active and it is the current one. A free lock means nothing is pending, so the model's single pending step is enough. |
| `Navigation.ReachableAtMostOneActive` | script.js:90-104 | After page load and any events, no slide other than the current one is visible. |
| `Navigation.ApplyStaysInRange` | script.js:71-83 | One next, previous, tick, callback or in-range request keeps the index in [0, 16). |
| `Navigation.RunStaysInRange` | script.js:71-83 | A sequence of such events keeps the index in [0, 16). |
| `Navigation.NeverStuckWhenAllSlidesExist` | script.js:100-110 | When all 16 slide elements exist and only valid indices are requested, the lock is never stuck, and two more callbacks always release it. |
| `Navigation.GoToFiveExample` | script.js:893-901 | From page load, `goToSlide(5)` and its two callbacks leave the navigator on slide 5, unlocked, with only slide 5 visible. |
| `Navigation.GoToTwentyExample` | script.js:893-901 | From page load, `goToSlide(20)` sets the index to 20 and takes the lock, and no later event changes anything. |
| `Input.KeyCommand` | script.js:135-155 | Right arrow and space mean next; left arrow means previous; Home means slide 0; End means slide 15. Each equivalence holds both ways. Every other key gives no command, and so is neither handled nor prevented. Every key command targets a valid index. |
| `Input.SwipeCommand` | script.js:167-183 | A gesture acts exactly when both start coordinates are non-zero, the horizontal travel exceeds the vertical one, and it exceeds 50. Then it means next exactly when start x > end x, and previous exactly when start x < end x. So a swipe only ever asks for next or previous. |
| `Input.SwipeReversal` | script.js:173-183 | When all coordinates are non-zero, a gesture means next exactly when the reversed gesture means previous, and one is ignored exactly when the other is. |
| `Input.TouchTracker.constructor` | script.js:159-160 | The start point begins at (0, 0). |
| `Input.TouchTracker.TouchStart` | script.js:162-165 | `touchstart` records the start point. |
| `Input.TouchTracker.TouchEnd` | script.js:167-187 | The returned command is the swipe decision for the recorded start and the given end. The start point resets to (0, 0) only when past the zero test; otherwise it is unchanged. |
| `NavigatorClass.Navigator.constructor` | script.js:21-24 | The initial state is index 0, unlocked, nothing pending, slide 0 active if it exists, and then the controls are drawn for slide 0. |
| `NavigatorClass.Navigator.UpdateNavigation` | script.js:123-132 | Afterwards dot `k` is active exactly when `k` is the current index. The prev button is at 0.5 exactly at slide 0, and the next button exactly at slide 15; otherwise they are at 1. |
| `NavigatorClass.Navigator.RestoreButtonOpacity` | script.js:780-784 | The load-time button callback sets prev to 0.5 and next to 1 whatever the slide is. It agrees with the drawn controls on slide 0, and on any other slide the controls no longer match the current slide. |
| `NavigatorClass.Navigator.ShowSlide` | script.js:114-121 | If slide `i` exists it becomes active and the controls are redrawn; otherwise nothing changes. |
| `NavigatorClass.Navigator.GoToSlide` | script.js:85-112 | The object's new state is `Navigation.GoToSlide` of its old state, and the invariant is kept. |
| `NavigatorClass.Navigator.NextSlide` | script.js:71-76 | The new state is `Navigation.NextSlide` of the old. |
| `NavigatorClass.Navigator.PreviousSlide` | script.js:78-83 | The new state is `Navigation.PreviousSlide` of the old. |
| `NavigatorClass.Navigator.AutoAdvanceTick` | script.js:807-813 | The new state is `Navigation.AutoAdvance` of the old. |
| `NavigatorClass.Navigator.Step` | script.js:102-110 | The new state is `Navigation.Step` of the old. After a reveal the controls show the current slide; otherwise the dots and buttons are untouched. |
| `NavigatorClass.Navigator.Dispatch` | script.js:43-48 | Buttons and dots are carried out as next, previous or go-to. |
| `NavigatorClass.Navigator.HandleKey` | script.js:135-155 | The default action is prevented exactly for the five mapped keys. The state changes by the mapped command, or not at all. |
| `NavigatorClass.Navigator.HandleTouchEnd` | script.js:167-187 | The state changes by the swipe's command, or not at all. The tracker's start point is kept when a start coordinate was 0, and otherwise reset to (0, 0). |
| `Widgets.Click` | script.js:687-689 | The group after a click keeps its size; item `k` is selected and no other item is. This holds whatever was selected before. |
| `Widgets.ClickIdempotent` | script.js:687-689 | Clicking the selected item again leaves the group unchanged. |
| `Widgets.LastClickWins` | script.js:684-689 | After any series of clicks, the group is as if only the last click happened. |
| `Widgets.Select` | script.js:687-689 | In place: the array becomes the cleared-then-set group, with only `k` selected. Choice cards, Intel tiers (706-708), screen sizes (728-730) and brand cards (750-752) share this loop. |
| `Widgets.PowerBarWidth` | script.js:373-380 | The width is one of 30, 60, 85 and 100 percent. It is 60, 85 or 100 exactly for i5, i7 or i9; i3, unknown and missing tiers get 30. |
| `Widgets.PowerBarWidthMonotone` | script.js:375-380 | A higher tier never gets a shorter bar. |
| `Widgets.RamConfigFor` | script.js:474-517 | A listed slider value gets its own row of the table `RamConfigs`; any other value falls back to the 8 GB row. The rating is always 2 to 5 stars. |
| `Widgets.RamStarsMonotone` | script.js:474-515 | More memory never rates fewer stars. |
| `Widgets.StarRowSolidCount` | script.js:533-536 | A row of `n` icons, icon `i` solid when `i <= stars`, has `stars` solid icons, clamped to [0, n]. |
| `Widgets.UpdateRamRating` | script.js:517-536 | The configuration is the lookup with fallback. Exactly five icons are built, the first `stars` solid, so the rating shows `stars` solid icons. |

## Left out

- Timing: the 100 ms and 600 ms delays of a transition are not modelled. Only their order is: reveal, then unlock. Requests and auto-advance ticks may come between them in a `Run`.
- The cosmetic timers are not events of the navigator model. This includes the 800 ms button callback of `startAnimations` (script.js:780-784). It is modelled as `RestoreButtonOpacity`, but not ordered against navigation. In the source, a navigation finished within the first 800 ms is followed by that callback. It leaves the prev button dimmed on a slide other than 0, so `UpdateNavigation`'s description of the buttons then no longer holds.
- `triggerSlideAnimations` and every other cosmetic effect: style and transform writes, staggered animations, hover, glow and pulse effects, and the transform feedback inside the click handlers. They hold no observable logic.
- The HDD/SSD loading race and `resetLoadingDemo` (script.js:570-625): its tick count depends on floating-point accumulation.
- `updateFrequencyDisplay`'s percentage (script.js:432): floating-point interpolation.
- `startAutoAdvance`/`stopAutoAdvance`, and stopping auto-advance on click, key press and touch: they only hold an interval handle. One tick is modelled, as `AutoTick`.
- Browser services: the `IntersectionObserver`, fullscreen toggling and its F11/double-click handlers, `debounce` with the resize reflow, and the error and `beforeunload` listeners.
- `getCurrentSlide` and `getTotalSlides` of the public API: they are the field `current` and the constant `TotalSlides`.
- The RAM rows' titles and usage examples and the `innerHTML` built from them: a row is identified by its size in gigabytes, and only the star count is modelled.
- Widgets.UpdateRamRating: always builds the five icons. The source builds them only when the `#performanceRating` element and its `.rating-stars` child exist (script.js:529-531); otherwise it draws nothing. That element lookup is not modelled.
- JavaScript value quirks outside the model's types: a non-number argument to `goToSlide` (string concatenation in `currentSlide + 1`), inherited property names such as `toString` used as a RAM slider value, fractional touch coordinates (coordinates are integers), and a power bar outside any `.intel-tier` (a null dereference).
- The model assumes the prev and next button elements exist. The source looks them up once (script.js:8-9) and `updateNavigation` uses them without a check (script.js:130-131). Without them, `showSlide(0)` at load throws (script.js:23), so the event listeners are never installed. The reveal callback would also throw at script.js:104, before the unlock is scheduled at script.js:107, leaving the lock held forever even when every slide exists. `NeverStuckWhenAllSlidesExist` holds only under this assumption.
- The dots' and slides' classes in the page's markup before load: the model starts with no dot active and no slide active.
