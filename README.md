# Relationship timer and love-letter reveal, verified in Dafny

This project models the two parts of the page script `script.js` whose
behaviour can be stated exactly. Everything else in the script draws on a
canvas or wires the DOM.

- **Relationship timer** (`RelationshipTimer.updateTimer`). This part takes
  the difference in milliseconds between a fixed start instant and now. It
  splits the difference into years, months, days, hours, minutes and seconds,
  using fixed divisors: a year is 365 days and a month is 30 days. It then
  writes the six numbers as text into six fields. Hours, minutes and seconds
  are padded to two digits. If the start is in the future, every field shows
  `"0"`.
  - Module `ElapsedTime` (`elapsed_time.dfy`) holds the arithmetic
    (`Decompose`), the formatting (`Format`, `Render`) and the class
    `RelationshipTimer`.
  - The class has six string fields, one per text field. Its `UpdateTimer`
    writes the six fields in place.
  - Module `Decimal` (`decimal.dfy`) models the two conversions the page
    relies on: `Number.prototype.toString` of a non-negative integer
    (`NatToString`) and `String.prototype.padStart(2, '0')` (`PadStart`,
    `TwoDigits`).
- **Envelope/letter reveal** (`LoveLetter`). A click toggles between closed
  and open.
  - Opening adds the class `opened` to the envelope at once. After 300 ms, a
    timer adds `show` to the letter and sets `isOpen`.
  - Closing removes `show` at once. After 500 ms, a timer removes `opened`
    and clears `isOpen`.
  - Module `Letter` (`love_letter.dfy`) gives this as pure step functions on a
    `Snapshot`: `Open`, `Close`, `Toggle`, `Fire`, `Settle` and `Run`. It also
    holds a class `LoveLetter` whose methods update its fields in place and
    are proved equal to those step functions.
  - The pending `setTimeout` callbacks are explicit: a queue of
    `Timer(due, callback)` over a virtual millisecond clock. The queue is kept
    in firing order. Equal due times fire in the order they were scheduled.
  - Callbacks run one at a time on a single thread, so the page is a
    sequential event system: either a click happens at some instant, or the
    earliest pending timer fires.
  - Class lists behave as sets, so each class is one boolean
    (`envelopeOpened`, `letterShown`).

Notes on how the model reads the code:

- **Days are taken from the whole difference.** `days` is computed from the
  difference modulo 30 days, not from what is left once the months are
  removed (script.js:113). The model follows the code, so the six fields do
  not add back up to the difference.
  - One 365-day year shows `1` year, `0` months and `5` days
    (`OneYearShowsFiveDays`).
  - "One year, two months and three days" (428 days) shows days = 8, not 3
    (`YearMonthsDays`).
  - `DaysShift` gives the general rule: every whole 365-day year shifts the
    shown days by five, modulo 30. `DaysAgreeIffSixYears` follows from it:
    the shown days equal the days left after removing months exactly when
    the number of years is a multiple of six.
  - Months can reach 12, for example at 360 days
    (`TwelveMonthsBeforeAYear`).
- **Division is exact.** The script divides with floating point and then
  applies `Math.floor`. For a non-negative integer difference below 2^53 ms,
  this equals integer division, and `%` equals the integer remainder. The
  model uses Dafny's `/` and `%` on `nat`. The negative case never reaches
  the arithmetic.
- **Timers fire on time.** This is a modelling assumption: each timer fires
  exactly at its due instant. `Toggle` therefore requires `CanClick`: no
  pending timer is due before the click's instant, and the clock does not go
  backwards. A click may share an instant with a due timer. Browsers do not
  promise this; a timer may run late, after a later click.
- **Stale timers are possible.** Timers are never cancelled, and the
  callbacks do not check the state, so a stale reveal can run after a close
  has begun. `SettleFlags` states the general outcome: once every pending
  timer has fired, `isOpen` follows the last timer, the letter is shown if any
  reveal was pending, and the envelope stays opened only if no close was
  pending. `StaleRevealAfterClose` gives one concrete trace. It ends with
  `isOpen` false and the envelope closed, yet the letter still shown.

## Model

| member | source | states |
|---|---|---|
| `ElapsedTime.Decompose` | script.js:111-116 | The split of a non-negative difference, one field per line. What each field means is stated by `DecomposeSpec`. |
| `ElapsedTime.DecomposeSpec` | script.js:111-116 | `years` is the whole number of 365-day years in the difference. `months` (at most 12) is the whole number of 30-day months in the remainder after years. `days` (at most 29) is the whole number of days in the difference modulo 30 days. Hours are at most 23, and minutes and seconds at most 59. Hours, minutes, seconds and the leftover milliseconds add up to the difference modulo one day. |
| `ElapsedTime.TimeOfDay` | script.js:114-116 | Hours, minutes and seconds, each taken from its own remainder of the difference, plus the leftover milliseconds, add back up to the difference modulo one day. |
| `ElapsedTime.OneYearShowsFiveDays` | script.js:111-113 | Exactly 365 days splits into 1 year, 0 months and 5 days. |
| `ElapsedTime.TwelveMonthsBeforeAYear` | script.js:111-112 | 360 days splits into 0 years and 12 months. |
| `ElapsedTime.YearMonthsDays` | script.js:111-113 | 428 days (one year, two months and three days) splits into 1 year, 2 months and 8 days. |
| `ElapsedTime.DaysShift` | script.js:111-113 | For every difference, the shown days equal five times the years plus the days left after removing years and months, modulo 30. |
| `ElapsedTime.DaysAgreeIffSixYears` | script.js:111-113 | The shown days equal the days left after removing months if and only if the number of years is a multiple of six. |
| `ElapsedTime.Format` | script.js:118-123 | Years, months and days as plain numbers; hours, minutes and seconds padded to two digits. What the texts mean is stated by `RenderSpec`. |
| `ElapsedTime.Render` | script.js:105-123 | The six texts one `updateTimer` writes: all `"0"` for a future start, otherwise `Format` of the split. What they mean is stated by `RenderSpec` and `FutureStartIsZeroNotPadded`. |
| `ElapsedTime.RenderSpec` | script.js:105-123 | A negative difference shows `"0"` in all six fields. Otherwise years, months and days are shortest decimal texts (no leading zero). Hours, minutes and seconds are exactly two digits, with a leading `'0'` exactly when the value is below ten. Each text denotes its field of the split. |
| `ElapsedTime.FutureStartIsZeroNotPadded` | script.js:105-123 | The hours field is the one-character `"0"` if and only if the start is in the future. Otherwise it is exactly two characters long. |
| `ElapsedTime.RelationshipTimer.constructor` | script.js:86-98 | Stores the start instant and renders once straight away. |
| `ElapsedTime.RelationshipTimer.UpdateTimer` | script.js:101-124 | After the call, the six text fields hold exactly `Render(start, now)`. |
| `Decimal.NatToString` | script.js:118-120 | `toString` of a non-negative integer is a non-empty digit string with no leading zero. Its first character is `'0'` exactly for 0, and it is one character long exactly below 10. |
| `Decimal.NatToStringValue` | script.js:118-120 | Reading back the text that `NatToString` writes gives the number. |
| `Decimal.NatToStringOfValue` | script.js:118-120 | Every canonical digit string is what `NatToString` writes for its value, so `toString` is the only canonical text of a number. |
| `Decimal.PadStart` | script.js:121-123 | `padStart(width, fill)` returns the longer of the width and the input's length. The input is a suffix of the result, and every character before it is the fill. |
| `Decimal.TwoDigits` | script.js:121-123 | `n.toString().padStart(2, '0')`. What the text means is stated by `TwoDigitsSpec`. |
| `Decimal.TwoDigitsSpec` | script.js:121-123 | `n.toString().padStart(2, '0')` is two digits for n below 100, starts with `'0'` exactly when n is below 10, and denotes n. |
| `Letter.Schedule` | script.js:148-151 | `setTimeout` adds exactly one timer (a multiset union) and keeps the queue in due order. Timers due no later than the new one keep their places ahead of it. Timers due later keep their order, each one place further back. |
| `Letter.Open` | script.js:145-152 | `openLetter` adds `opened` at once. It leaves `isOpen` and `show` unchanged and adds one reveal timer due 300 ms later. |
| `Letter.Close` | script.js:154-161 | `closeLetter` removes `show` at once. It leaves `isOpen` and `opened` unchanged and adds one closing timer due 500 ms later. |
| `Letter.Toggle` | script.js:137-143 | `toggleLetter` opens when `isOpen` is false and closes otherwise. It never changes `isOpen` itself and adds exactly one timer of the matching kind. |
| `Letter.Fire` | script.js:148-151 | The earliest timer fires and the clock moves to its due time. The reveal callback sets `show` and `isOpen` and leaves `opened`. The closing callback (script.js:157-160) clears `opened` and `isOpen` and leaves `show`. |
| `Letter.Settle` | script.js:148-160 | Firing every pending timer, earliest first, empties the queue. The clock ends at the last due time. |
| `Letter.SettleFlags` | script.js:148-160 | Once every pending timer has fired, `isOpen` is set exactly when the last timer is a reveal. `show` is set exactly when it was set or some reveal was pending. `opened` is set exactly when it was set and no close was pending. |
| `Letter.Run` | script.js:134-161 | A trace of clicks and timer firings keeps the queue ordered. After a trace that ends in a click, the clock is that click's instant. |
| `Letter.SettleShowing` | script.js:148-151 | If every pending timer is a reveal, firing them all leaves the reveal open with the letter shown and the envelope unchanged. |
| `Letter.SettleClosing` | script.js:157-160 | If every pending timer is a close, firing them all leaves the reveal closed with the envelope closed and the letter unchanged. |
| `Letter.ClickWhileOpening` | script.js:137-150 | During an opening (`isOpen` false, only reveal timers pending), another click opens again. It adds one more reveal timer. `isOpen` stays false, `opened` is set (even if a stale close had cleared it) and `show` is unchanged. |
| `Letter.ClickWhileClosing` | script.js:137-160 | During a closing (`isOpen` true, only closing timers pending), another click closes again. |
| `Letter.RoundTrip` | script.js:132-161 | From closed and idle, a click and its timer give `isOpen`, `opened` and `show` all true with nothing pending. A second click and its timer return to the initial closed state with neither class. |
| `Letter.DoubleClickBeforeReveal` | script.js:138-150 | Two clicks before the first reveal timer fires both schedule a reveal. Once the timers have run, the flags are those of a single click. |
| `Letter.TwoQuickClicks` | script.js:138-150 | Clicks at 0 ms and 100 ms from closed leave `opened` set and two reveals pending, due at 300 ms and 400 ms. |
| `Letter.CloseWithRevealPending` | script.js:148-160 | After the first reveal fires, a click at 350 ms closes while the second reveal is still pending. |
| `Letter.StaleRevealAfterClose` | script.js:137-161 | The trace "click, click, timer, click, timer, timer" ends with `isOpen` false and `opened` cleared, yet `show` set. This is the stale reveal that uncancelled timers allow. |
| `Letter.LoveLetter.constructor` | script.js:129-135 | A new reveal is closed, with nothing pending. The markup is taken to start with no class set. |
| `Letter.LoveLetter.ToggleLetter` | script.js:137-143 | Changes the fields exactly as `Toggle` does. |
| `Letter.LoveLetter.OpenLetter` | script.js:145-152 | Changes the fields exactly as `Open` does. |
| `Letter.LoveLetter.CloseLetter` | script.js:154-161 | Changes the fields exactly as `Close` does. |
| `Letter.LoveLetter.FireNext` | script.js:148-160 | Runs the earliest pending callback and changes the fields exactly as `Fire` does. |

## Left out

- The falling-hearts animation (`Heart` and `HeartsAnimation`,
  script.js:1-82) is not modelled. It uses floating-point positions,
  `Math.random`, `Math.sin` and canvas Bezier drawing.
- Window resizing (script.js:57-63) is not modelled. It only reads the
  window size and writes the canvas size.
- The recurring scheduling is not modelled: `requestAnimationFrame`
  (script.js:80) and the one-second `setInterval` (script.js:98). One
  `updateTimer` call is modelled as a function of the start and now
  instants.
- Parsing the start date `new Date('2025-10-18T00:00:00')` (script.js:87)
  depends on the local time zone. The start is an integer millisecond
  parameter.
- The system clock (`new Date()`) is not modelled. Now is a parameter, and
  for the reveal it is the instant of each click.
- DOM lookups (`getElementById`) and the null-reference faults when an
  element is missing are not modelled. The elements are taken to exist as
  fields.
- Registering the click listener is not modelled. Clicks are calls of
  `ToggleLetter` or `Click` events of `Run`.
- The hover and click style effects and the `DOMContentLoaded` wiring
  (script.js:164-193) are not modelled. They only set presentation
  strings.
- Floating-point arithmetic in `updateTimer` is modelled as exact integer
  arithmetic. It is exact for differences below 2^53 ms.
- `Number.prototype.toString` switches to exponent notation for numbers of
  10^21 and above. Such a difference is not reachable, so this is not
  modelled.
- Timers that fire late, and a click handled before a timer that is
  already overdue, are not modelled. Each timer fires exactly at its due
  instant, and `CanClick` keeps clicks after every timer due before them.
- The initial classes of the page markup are not read. The model takes the
  envelope to start without `opened` and the letter without `show`; the
  constructor (script.js:129-135) itself sets only `isOpen`.
