# aws-console-colors, modelled in Dafny

A userscript recolours the navigation bar of a cloud console. The colour depends on the active account or role, so that several logged-in environments look different. This project models the logic in `aws-console-colors.user.ts` and proves properties of it. It covers four parts:

- **Element Locator** (`getNavElements`, module `Locator`). It looks up the header, then the container inside the header, then the account switcher inside the container. It returns the first missing element as an error.
- **Retrying Locator** (`getNavElementsAsync`, module `Retry`). The self-rescheduling timer callback is the class `RetryingLocator`. It holds the retry counter, the "another attempt is scheduled" flag and the state of the promise. Each timer tick is one `Attempt` fed with the outcome of that tick's lookup. `Run` drives the attempts over a sequence of lookup outcomes.
- **Color Transform** (`determineNewColor`, modules `JsText` and `Color`). The input is split on commas and its first four characters are skipped. Each channel goes through `parseInt`, modelled after ECMAScript: leading white space, a sign, a `0x` prefix, then digits. A channel that is not a number is NaN, and NaN flows into `Math.max`, `Math.min` and the `===` tests of the hue `switch`, whose `default` throws. The hue follows the conventional piecewise formula, computed on exact reals, and the output is printed as `hsl(H,S%,L%)`.
- **Recolor Orchestrator** (`setNavColorAsync`, module `Recolor`). `StartNavColoring` runs the Retrying Locator with the budget 300 and hands its result to the reaction that attaches the MutationObserver. The observer callback picks a colour from the role settings or computes one, then paints every `nav` slot in an array. The class `NavColoring` holds whether that reaction has run, the observer's connected flag, the returned promise and a count of callback runs. Its invariant `Valid` keeps that count at most one.

The promise state used by both the retry loop and the orchestrator is `Promises.Settlement`. Only the first `resolve` or `reject` has an effect.

Two consequences of how the code is written:

- There is no `return` after `reject` (line 27), so polling goes on after the rejection. `Retry.LateSuccessIsIgnored` shows that a later success is still looked up but cannot change the settled promise.
- A malformed colour makes `determineNewColor` throw inside the MutationObserver callback (lines 66-91), outside the promise chain. The promise returned by `setNavColorAsync` then never settles. `NavColoring.OnMutation` returns the thrown error, paints nothing and leaves the promise pending.

## Model

| member | source | states |
|---|---|---|
| `Locator.GetNavElements` | aws-console-colors.user.ts:1-18 | Succeeds exactly when the header, the container inside it and the switcher inside that all exist, and then returns those three. Otherwise the error names an element that is missing while every element checked before it was found. |
| `Locator.ReportsMissingElement` | aws-console-colors.user.ts:3-15 | A missing header, container or switcher returns the Error "#consoleNavHeader not found", "#awsc-navigation-container not found" or "switcher element not found" respectively, and no two lookups share a message. |
| `Promises.Settle` | aws-console-colors.user.ts:27-33 | A promise settles once. `Retry.SettlementIsFinal` states that for the retry loop. |
| `Retry.Step` | aws-console-colors.user.ts:23-31 | The effect of one `fn(retryCount)` on the promise. `Retry.RetryingLocator.Attempt` is proved against it. |
| `Retry.MaxRetryTimes` | aws-console-colors.user.ts:63 | The budget 300 that `setNavColorAsync` passes. `Recolor.StartNavColoring` runs the retry loop with it. |
| `Retry.SettledAfter` | aws-console-colors.user.ts:23-35 | The promise after a run of attempts. `Retry.ResolvesAtFirstSuccess`, `Retry.RejectsWhenBudgetExhausted` and `Retry.LateSuccessIsIgnored` state its outcomes. |
| `Retry.AttemptsMade` | aws-console-colors.user.ts:23-35 | The number of lookups performed. Every attempt before the last one failed. Attempts stop right after the first success, or when the outcomes run out. |
| `Retry.RetryingLocator.constructor` | aws-console-colors.user.ts:22-23 | Starts with nothing settled, retry counter 0 and the first attempt about to run. |
| `Retry.RetryingLocator.Resolve` | aws-console-colors.user.ts:33 | `resolve` settles the promise only if it is still pending. |
| `Retry.RetryingLocator.Reject` | aws-console-colors.user.ts:27 | `reject` settles the promise only if it is still pending. |
| `Retry.RetryingLocator.Attempt` | aws-console-colors.user.ts:23-31 | One run of `fn(retryCount)`. A failure rejects when `retryCount >= maxRetryTimes` and always reschedules, adding exactly 1 to the counter. A success resolves and stops. The invariant ties the promise to the outcomes seen so far. |
| `Retry.Run` | aws-console-colors.user.ts:21-36 | Over a sequence of lookup outcomes: makes exactly `AttemptsMade` lookups and ends with the promise that those attempts settle. |
| `Retry.SettlementIsFinal` | aws-console-colors.user.ts:27-33 | Once the promise is settled, no later attempt changes it. |
| `Retry.PendingWithinBudget` | aws-console-colors.user.ts:25-29 | Failures at attempts below `maxRetryTimes` leave the promise pending. |
| `Retry.ResolvesAtFirstSuccess` | aws-console-colors.user.ts:23-35 | If the first success is at attempt k, and no earlier failure could have rejected (k ≤ maxRetryTimes, or k = 0 for a negative budget), there are exactly k+1 lookups and the promise resolves with that lookup's elements. |
| `Retry.RejectsWhenBudgetExhausted` | aws-console-colors.user.ts:25-29 | If every lookup fails up to the budget, nothing settles before lookup maxRetryTimes+1. That lookup rejects with its own error, and the rejection stays. |
| `Retry.LateSuccessIsIgnored` | aws-console-colors.user.ts:26-33 | With no `return` after `reject`, polling goes on. A success after the rejection is looked up (k+1 lookups) but the promise stays rejected with the budget attempt's error. |
| `JsText.TrimStart` | aws-console-colors.user.ts:40-42 | `parseInt` first drops a prefix made only of white space. What is left is empty or starts with a non-white-space character. |
| `JsText.DigitRun` | aws-console-colors.user.ts:40-42 | `parseInt` reads the longest run of digits of the radix and stops at the first non-digit. |
| `JsText.Split` | aws-console-colors.user.ts:39 | `split(",")` gives at least one piece, no piece contains the separator, and joining the pieces gives the input back. |
| `JsText.SplitJoin` | aws-console-colors.user.ts:39 | Splitting the join of separator-free pieces gives the pieces back (split is the inverse of join). |
| `JsText.NatToString` | aws-console-colors.user.ts:58 | The decimal text of a number in the template string is non-empty, all digits, and has no leading zero. |
| `JsText.NatToStringValue` | aws-console-colors.user.ts:58 | Reading that decimal text back gives the number. |
| `JsText.IntToString` | aws-console-colors.user.ts:58 | The decimal text that `${...}` gives an integer, with a leading `-` for a negative one. `JsText.ParseIntRoundTrip` and `Color.ReadsOwnOutput` show it is read back as the same number. |
| `JsText.Slice` | aws-console-colors.user.ts:40 | `slice(4)`, which gives "" when the text is shorter. `Color.FirstField` uses it. |
| `JsText.ParseInt` | aws-console-colors.user.ts:40-42 | `parseInt` with no radix, None for NaN. `JsText.ParseIntRoundTrip` states what it reads, and `Color.NonNumericChannelThrows` shows a NaN case. |
| `JsText.ParseSigned` | aws-console-colors.user.ts:40-42 | The sign step of `parseInt`. `JsText.SignedRoundTrip` states it. |
| `JsText.ParseMagnitude` | aws-console-colors.user.ts:40-42 | The `0x` prefix and digit-run step of `parseInt`. `JsText.MagnitudeRoundTrip` states it. |
| `JsText.ParseDigits` | aws-console-colors.user.ts:40-42 | The longest run of digits of the radix, NaN when there is none. `JsText.MagnitudeRoundTrip` states what it reads. |
| `JsText.ParseIntRoundTrip` | aws-console-colors.user.ts:40-42 | `parseInt` reads back any integer's text after any white space, when the next character is neither a digit nor an `x`. |
| `Color.Sextants` | aws-console-colors.user.ts:49-56 | The hue before `h /= 6`, for three numbers that are not all equal, lies in [0, 6). |
| `Color.HslOf` | aws-console-colors.user.ts:43-58 | Gray input gets H = 0 and S = 0 whatever saturation is asked for. Any other input gets H in 0..359 and S = floor(saturation·100). L is always floor(luminosity·100). |
| `Color.HueRotation` | aws-console-colors.user.ts:50-56 | Rotating the channels (red to green, green to blue, blue to red) turns the hue by exactly a third of a turn. So the branches and the tie-breaking form one consistent hue wheel. |
| `Color.ParseTriple` | aws-console-colors.user.ts:39-42 | The split/slice/parseInt reader recovers any three integers written after a comma-free four-character head, separated by commas and optional white space. |
| `Color.ReadsRgbText` | aws-console-colors.user.ts:38-58 | On `rgb(R, G, B)` the transform reads exactly R, G, B and prints their HSL. |
| `Color.ReadsOwnOutput` | aws-console-colors.user.ts:39-42 | The transform's own reader, applied to its output `hsl(H,S%,L%)`, gives back H, S and L. |
| `Color.ParseChannels` | aws-console-colors.user.ts:39-42 | The three `parseInt` results, None for NaN. Its properties are stated by `Color.ParseTriple` and by the malformed-input lemmas below. |
| `Color.ParseRgb` | aws-console-colors.user.ts:39-42 | The channels when none is NaN. `Color.ParseTriple`, `Color.ReadsRgbText` and `Color.ReadsOwnOutput` state what it reads. |
| `Color.Over255` | aws-console-colors.user.ts:40-42 | `parseInt(...) / 255`, where NaN stays NaN. `Color.ConvertThrows` states the conversion built on it. |
| `Color.Max3` | aws-console-colors.user.ts:43 | The largest of three numbers. `Color.NumbersReachCase` uses the fact that it is one of them. |
| `Color.Min3` | aws-console-colors.user.ts:44 | The smallest of three numbers. `Color.NumbersReachCase` and `Color.HueRotation` use it. |
| `Color.JsMax3` | aws-console-colors.user.ts:43 | `Math.max`, NaN as soon as one argument is NaN. `Color.NaNReachesDefault` and `Color.NumbersReachCase` state its effect on the `switch`. |
| `Color.JsMin3` | aws-console-colors.user.ts:44 | `Math.min`, NaN as soon as one argument is NaN. `Color.NaNReachesDefault` and `Color.NumbersReachCase` state its effect on the `switch`. |
| `Color.StrictEq` | aws-console-colors.user.ts:46-53 | `===` on numbers, where NaN equals nothing. `Color.NaNReachesDefault` shows that no `case` matches a NaN maximum. |
| `Color.HueAndSaturation` | aws-console-colors.user.ts:43-57 | The hue and printed saturation, or the throw of the `default`. Its meaning is stated by `Color.NaNReachesDefault` and `Color.NumbersReachCase`. |
| `Color.NaNReachesDefault` | aws-console-colors.user.ts:43-54 | A NaN channel makes `max` and `min` NaN, so `max === min` fails, no `case` matches and the `default` throws. |
| `Color.NumbersReachCase` | aws-console-colors.user.ts:46-56 | With three numbers the `default` is never reached. Equal ones give hue 0 and saturation 0, and any others give `Sextants` / 6 and the requested saturation. |
| `Color.FormatHsl` | aws-console-colors.user.ts:58 | The template `hsl(H,S%,L%)`. `Color.ReadsOwnOutput` shows its numbers can be read back. |
| `Color.DetermineNewColor` | aws-console-colors.user.ts:38-59 | `determineNewColor` with its defaults 1.0 and 0.25. `Color.MalformedThrows` and `Color.ReadsRgbText` state what it returns. |
| `Color.Convert` | aws-console-colors.user.ts:40-58 | Lines 40-58 once the three `parseInt` results are known. `Color.ConvertThrows` states when it throws and what it prints. |
| `Color.ConvertThrows` | aws-console-colors.user.ts:40-58 | Once the three `parseInt` results are known, the conversion throws exactly when one is NaN, and the error is the `default`'s. Otherwise it prints the `HslOf` components. |
| `Color.MalformedThrows` | aws-console-colors.user.ts:38-59 | `determineNewColor` throws exactly when some parsed channel is NaN, for any saturation and luminosity; it never falls back to a default. When no channel is NaN it prints `HslOf` of the channels. |
| `Color.NonNumericChannelThrows` | aws-console-colors.user.ts:40 | `rgb(red, 0, 0)` throws because its red channel is NaN. |
| `Color.MissingChannelThrows` | aws-console-colors.user.ts:41-42 | `rgb(1, 2)` throws because the missing third field is NaN. |
| `Color.MissingFieldThrows` | aws-console-colors.user.ts:39-42 | Any input with fewer than three comma-separated fields throws, because a missing field is `undefined`, whose parseInt is NaN. |
| `Color.RedExample` | aws-console-colors.user.ts:38-58 | `rgb(255,0,0)` gives `hsl(0,100%,25%)` with the default saturation and luminosity. |
| `Color.GreenExample` | aws-console-colors.user.ts:38-58 | `rgb(0,255,0)` gives `hsl(120,100%,25%)`. |
| `Color.BlueExample` | aws-console-colors.user.ts:38-58 | `rgb(0,0,255)` gives `hsl(240,100%,25%)`. |
| `Color.GrayExample` | aws-console-colors.user.ts:38-58 | `rgb(10,10,10)` gives `hsl(0,0%,25%)`: saturation is forced to 0 although 1.0 was asked for. |
| `Recolor.SelectColors` | aws-console-colors.user.ts:71-80 | The colour choice. `Recolor.OverrideBypassesTransform` and `Recolor.ComputedWithoutOverride` state it for both branches. |
| `Recolor.FirstMatch` | aws-console-colors.user.ts:71 | `find` returns the first setting whose pattern matches, and no earlier one matches. None means no setting matches. |
| `Recolor.OverrideBypassesTransform` | aws-console-colors.user.ts:71-76 | When the role is present and a pattern matches it, both colours are the first matching setting's `color ?? ""`, for any switcher colour, even a malformed one. |
| `Recolor.ComputedWithoutOverride` | aws-console-colors.user.ts:71-80 | When the role is absent (even if a pattern matches "") or no pattern matches it, the colours are the transform of the switcher colour with the defaults and with (0.95, 0.90). A malformed colour throws. |
| `Recolor.ApplyNavColor` | aws-console-colors.user.ts:84-89 | A non-empty colour is written into every nav slot. An empty one writes nothing. |
| `Recolor.Painted` | aws-console-colors.user.ts:71-90 | What one run of the callback leaves once the colours are selected. On a throw, the navs and the promise are as they were. Otherwise every nav holds a non-empty nav colour (an empty one writes nothing) and the promise settles with the content colour. |
| `Recolor.NavColoring.constructor` | aws-console-colors.user.ts:62 | Starts with no reaction run, no observer attached, no callback run and the promise pending. |
| `Recolor.NavColoring.OnLocated` | aws-console-colors.user.ts:63-64 | The one reaction to the lookups, which may run only once. Found elements attach the observer. A rejected lookup rejects the returned promise with the lookup error and attaches nothing. A pending lookup runs neither. |
| `Recolor.NavColoring.OnMutation` | aws-console-colors.user.ts:66-91 | Disconnects first. While attached it counts one run of the callback, and its effect is `Painted` for the colours `SelectColors` picks from the role and the switcher colour. Once disconnected it changes nothing. `Valid` keeps the count of runs at most one. |
| `Recolor.NavColoring.Disconnect` | aws-console-colors.user.ts:67 | `observer.disconnect()`: reports whether the callback was attached, detaches it and counts one run when it was. |
| `Recolor.NavColoring.Finish` | aws-console-colors.user.ts:71-90 | The rest of the callback once the colours are selected: the throw, or painting the navs and resolving with the content colour, exactly as `Painted` states. |
| `Recolor.StartNavColoring` | aws-console-colors.user.ts:61-64 | Runs the Retrying Locator with budget 300, making exactly `AttemptsMade` lookups. The reaction has run exactly when the lookups settled. The observer is attached exactly when the lookups resolve. A rejection rejects the returned promise with the lookup error, and otherwise it stays pending. |
| `Recolor.RecolorsOnce` | aws-console-colors.user.ts:66-91 | Once the elements are found, the first mutation leaves the navs and the pending promise as `Painted` states for the colours `SelectColors` picks. Any number of later mutations leave the navs and the promise exactly as the first one left them. |

## Left out

- DOM access (`getElementById`, `querySelector`, `querySelectorAll`, `parentElement`, `innerText`, `trim`, `style`) is replaced by inputs:
  - optional lookups for the three elements;
  - the role text, already trimmed and possibly absent;
  - the switcher's background colour string;
  - an array of nav background slots.
- `setTimeout` and the retry interval of 100 ms: timing is not modelled. Attempts are driven by a finite sequence of lookup outcomes. In the code, a page that never has the elements is polled forever; the model stops when the outcomes run out.
- `Retry.Run`: takes `maxRetryTimes` as an integer, while the code accepts any JavaScript number. With NaN, `retryCount >= maxRetryTimes` is never true and the promise never rejects. A fraction such as 2.5 rejects at attempt 3. Neither case is modelled; the only caller passes 300.
- Promise job ordering and the `then`/`catch` chaining: only the settle-once state of each promise is modelled.
- `MutationObserver`: only the connected flag and the fact that disconnecting comes first. Mutation records are not modelled.
- The `RegExp` engine: `pattern.test` is a pure predicate. With a global-flag pattern, the two `test` calls at lines 71 and 74 share `lastIndex` state in JavaScript. The model cannot capture that.
- IEEE-754 doubles: channel, hue, saturation and luminosity arithmetic is exact real arithmetic. `Math.floor` is `.Floor`. Rounding at integer boundaries, NaN or infinite saturation/luminosity, and `parseInt` of more than 15 significant digits are not modelled.
- `JsText.IntToString`: gives plain decimal text for every integer. JavaScript switches to exponent notation from 1e21 on.
- UTF-16: strings are sequences of Unicode scalar values. `slice(4)` counts UTF-16 code units in JavaScript, which differs when a character outside the Basic Multilingual Plane comes first.
- An error thrown from the observer callback is returned by `NavColoring.OnMutation` as `thrown`. Its escape to the host page's error reporting is not modelled.
- `console.log` diagnostics (line 82).
