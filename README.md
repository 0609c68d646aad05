# svg-animation-convertor, modelled in Dafny

The program turns an SVG animation into an animated GIF in the browser. A form supplies a
source, an optional output size, and three timings in milliseconds: `begin`, `interval` and
`duration`. The submit handler validates the form and derives `repeat = floor((duration - begin) / interval)`.
It then runs `setTimer`, a self-rescheduling timer that corrects for drift. On every tick the
timer snapshots the rendered image onto a canvas and appends it to `canvasList`. The canvases
are then handed to a GIF encoder.

This project models the logic behind that pipeline, with the browser replaced by explicit inputs:

- `Values` (values.dfy): an optional value standing for `undefined`, and `Math.max`.
- `Dom` (dom.dfy): the `$` helper. It splits a `"<tag>"` query, which creates an element, from a selector query.
- `Form` (form.dfy): the `get` handler of the proxy that `parseForm` returns. The first
  character of the key (`:`, `$`, `?`, `#`) decides whether the form entry named by the
  rest of the key comes back as a number, a string, a boolean, a File or `undefined`.
  Form data is a sequence of (name, entry) pairs, and `formData.get` returns the first match.
- `Timer` (timer.dfy): `setTimer` as a class. It holds the closure state `count` and `next`
  plus the due time of the pending `setTimeout`. `Date.now()` readings are parameters. Each
  new target is the previous target plus `interval`. Each sleep is `max(0, interval - dt)`,
  so the next tick is due at the later of the current reading and the next target. The
  callback runs exactly `repeat` times, and never when `repeat <= 0`.
- `Submit` (submit.dfy): the `form.onsubmit` decision, the `repeat` derivation, and frame
  capture into `canvasList` through the timer. Together these give the end-to-end fact that an
  accepted form with a positive interval collects exactly `repeat` canvases, in tick order. A
  rejected form, or one whose source makes `toUrl` throw, collects none.

Two facts about the code shape the model:

- The callback runs `repeat` times, not `repeat + 1`. The `count++` at src/utils.ts:73 uses
  up one test before the first tick, so an accepted form with `begin == duration` captures no
  frame at all.
- The submit handler never checks `interval > 0` (see Left out).

## Model

| member | source | states |
|---|---|---|
| `Dom.Element` | src/utils.ts:3-8 | a query creates an element exactly when its first character is `<`; the tag is the query without its first and last characters (`"<"` alone gives `"<"`, as `substring` swaps its arguments); any other query, the empty one included, is passed on unchanged as a selector |
| `Dom.TagRoundTrip` | src/utils.ts:4-5 | `$` applied to `"<" + tag + ">"` creates exactly `tag` |
| `Dom.Substring` | src/utils.ts:5 | JavaScript `substring`: in-range indices give that slice, and reversed in-range indices give the slice between them |
| `Form.Lookup` | src/utils.ts:26 | `formData.get(name)` is absent exactly when no entry has that name; otherwise it is the value of the first entry with that name |
| `Form.Identifier` | src/utils.ts:24 | the identifier is present exactly when the key is non-empty, and is then the first character of the key |
| `Form.Name` | src/utils.ts:25 | the identifier followed by the name gives back the key; the empty key has the empty name |
| `Form.Get` | src/utils.ts:22-49 | a missing field, or an identifier other than `:`, `$`, `?`, `#`, yields undefined; a File is returned exactly for `#` over an uploaded file, and `#` never yields anything else; `$` returns the text unchanged; `?` is a boolean that is true exactly for the text `"on"`; `:` parses a non-empty text, and empty text yields undefined |
| `Timer.Delay` | src/utils.ts:65-68 | the rescheduling delay is never negative; the next tick is due at `max(now, target + interval)`, so lateness shortens the sleep but does not move the next target; a tick that is not late by more than one interval keeps the next tick on its target |
| `Timer.Timer.constructor` | src/utils.ts:60-77 | the first target is the start reading plus `begin`; the first tick is due `begin` ms after the start (a negative delay acts as 0); the promise resolves at once, with no callback, exactly when `repeat <= 0`; the timer invariant holds |
| `Timer.Timer.Action` | src/utils.ts:63-72 | each firing runs the callback once; `next` advances by `interval` from the previous target, so after k callbacks it is `start + begin + k*interval`; the next tick is due at `max(now, next)`; the promise resolves exactly when the callback has run `max(0, repeat)` times |
| `Submit.Read` | src/main.ts:56-63 | stated over the raw form entries: "original" is set exactly when its entry is the text `"on"`, and then width and height are absent whatever was entered; otherwise each is the number parsed from a non-empty text entry, with 0 counting as absent; each timing is the number parsed from a non-empty text entry, and is absent for a missing entry, an empty text or a file; the source is the text entry unchanged |
| `Submit.Decide` | src/main.ts:64-77 | a non-empty source with a character above U+00FF makes `toUrl` throw before any check, and nothing else does; otherwise the form is rejected when "original" is unset and both width and height are absent, when duration, begin or interval is missing, when the source is missing or empty or does not render, or when `begin > duration`; nothing else rejects; an accepted plan carries the entered values, with `begin <= duration` and a non-empty, renderable source that `btoa` accepts |
| `Submit.FloorDiv` | src/main.ts:85 | `Math.floor` of the exact quotient: the greatest integer not above `a / b`, for either sign of `b` |
| `Submit.Repeat` | src/main.ts:85 | for a positive interval, `repeat * interval <= duration - begin < (repeat + 1) * interval`; for an accepted plan, `repeat >= 0` when the interval is positive and `repeat <= 0` when it is negative; `begin == duration` gives `repeat = 0` |
| `Submit.Capture` | src/main.ts:86-95 | `canvasList` ends with exactly `max(0, repeat)` canvases, the k-th being the snapshot taken at the k-th callback, in callback order; the first callback is due `begin` ms after the start; each later callback k is due at the later of the clock reading after callback k-1 and its target `start + begin + k*interval` |
| `Submit.OnSubmit` | src/main.ts:53-100 | a rejected form, or one whose source makes `toUrl` throw, captures no frame whatever its interval; an accepted one with a non-zero interval captures `max(0, repeat)` snapshots, one per callback in order, which is exactly `floor((duration - begin) / interval)` of them when the interval is positive |

## Left out

- GIF assembly in `wrapGif`, which covers palette quantization, GIF frame construction and
  encoding. It is done by the external `gifwrap` library. The `interval / 10` centisecond
  delay is a float division handed to that library.
- Real time and asynchrony: `Date.now()`, `setTimeout` and Promises. Clock readings and
  snapshots are parameters. A pending `setTimeout` is its due time. Event-loop interleaving is not modelled.
- `Timer.Timer.constructor`: `pending` is the due time the code requests, with only the
  browser's clamp of a negative delay to 0 applied. `next` still uses the raw `begin`, as the code does.
- `Timer.Timer.Action`: `pending` is the due time the code requests. The browser's other timer
  adjustments are not modelled: a delay of 2^31 ms or more wraps, and delays under 4 ms are
  raised to 4 ms once timeouts are nested more than five deep.
- `Timer.Timer.constructor`: the default `begin = 0` of `setTimer` is not modelled; the only
  caller always passes `begin`.
- DOM effects: what `$` really creates or selects, `getFrame`'s canvas drawing (its result
  at tick k is `shots(k)`), `download`, `FileReader`, and the input and change handlers.
- `validateUrl` (image load and error events) is the caller-supplied predicate `renders` on the source
  text. `toUrl` is a data-URI prefix around the browser's `btoa`, the base64 encoding of section 4 of
  RFC 4648. The model keeps three facts about it. It is called only for a non-empty source. It
  throws for a character above U+00FF, which abandons the handler with no alert, image or frame.
  Otherwise its result is a non-empty string. The encoding itself is not modelled.
- `parseFloat` is the caller-supplied function `num`. Numbers are integers, so there are no
  fractions, rounding or NaN. The model assumes the numeric fields never submit text that
  parses to NaN. The HTML that declares the input types is not part of this model.
- `Submit.Repeat`: defined only for a non-zero interval. An accepted interval of 0 makes the
  quotient Infinity or NaN, so the timer would run without end or not at all. That case is not modelled.
- `Submit.Capture`: requires a non-zero interval, for the reason given under `Submit.Repeat`.
- `Submit.OnSubmit`: for an accepted form whose interval is 0, the canvases collected are left unspecified, for the reason given under `Submit.Repeat`. Rejected forms and forms abandoned by `toUrl` are covered whatever their interval.
- `Dom.Element`, `Dom.Substring`, `Form.Identifier`, `Form.Name`: strings are sequences of Unicode
  characters. JavaScript's `length`, indexing and `substring` count UTF-16 code units, so a
  character outside the Basic Multilingual Plane counts as two units there. For example,
  `$("<😀")` creates the tag `"\uD83D"` in JavaScript but `""` in the model. No behaviour of the
  program depends on this: every `$` query and every form key it uses is an ASCII literal, and
  `Latin1` gives the same answer under both counts.
- `FormData` holding several entries under one name: only the first entry is looked up,
  which is all `formData.get` returns.
- The global `Buffer` polyfill and the stylesheet import.
