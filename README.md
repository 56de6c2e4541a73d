# CrptApi rate-limited document client, modelled in Dafny

The client submits a `Document` to a registration endpoint. Each instance of
`CrptApiImpl` holds a fixed-window call limiter: an attempt counter `calls`,
starting at 0, and a `requestLimit` fixed at construction and raised to 0 if
negative. `createDocument` increments the counter. If the new value is greater
than the limit it returns `false` at once, and the increment stays. Otherwise it
encodes the document to JSON, POSTs it, and returns `true` for any response,
whatever its status code. An encoding failure raises `JsonFormatException`. A
transport I/O failure raises `HttpClientCallException`. A timer calls `run()`
once per time unit, and `run()` sets the counter back to 0.

Files:

- `documents.dfy` (module `Documents`): the payload records `Document`,
  `Product` and `Description`, and the two one-variant enumerations.
- `crpt_api.dfy` (module `CrptApi`):
  - the outcome datatypes: a `Reply` is a boolean return or a thrown
    exception; an `Outcome` adds the body handed to the transport, if any;
  - the limiter state `Limiter` (ACCEPTING while `calls <= limit`, SATURATED
    after);
  - the pure step functions `Call` (one `createDocument`) and `Reset` (one
    `run()`);
  - the class `CrptApiImpl`, whose methods update the counter in place and are
    proved to agree with `Call` and `Reset`.
- `window.dfy` (module `Window`): sequential histories of calls and timer ticks,
  run through `Call` and `Reset`. The lemmas bound how many calls a window
  admits, and `Drive` carries them over to a `CrptApiImpl` object.

The JSON encoder (`ObjectMapper`) is a total function `Document -> Serialization`
fixed at construction. It either writes text or fails. What the HTTP transport
answers to a request is a per-call input `Exchange`: a status code, or an I/O
failure.

## Model

| member | source | states |
|---|---|---|
| `CrptApi.ClampLimit` | CrptApi.java:44 | the stored limit is `max(requestLimit, 0)`: it is at least the request, and equals either the request or 0 |
| `CrptApi.ConvertToJsonString` | CrptApi.java:91-102 | succeeds exactly when the encoder writes text, and yields that text; an encoder failure becomes `JsonFormatException` |
| `CrptApi.MakeCall` | CrptApi.java:78-88 | succeeds exactly when a response arrives, and yields its status code; an I/O failure becomes `HttpClientCallException` |
| `CrptApi.Submit` | CrptApi.java:60-69 | a call past the limiter never returns `false`. It returns `true` exactly when encoding succeeds and any response arrives, whatever the status code. It throws `JsonFormatException` exactly when encoding fails. It throws `HttpClientCallException` exactly when encoding succeeds and the transport fails. The transport is reached exactly when encoding succeeds, and it gets the encoded document |
| `CrptApi.Call` | CrptApi.java:55-69 | every call adds exactly 1 to the counter, accepted or not, and leaves the limit alone. The call is accepted exactly when the incremented counter is at most the limit. A rejected call returns `false` and reaches no transport. A call is rejected exactly when it leaves the limiter SATURATED, and a SATURATED limiter stays so |
| `CrptApi.Reset` | CrptApi.java:73-75 | the counter becomes 0, so the limiter is ACCEPTING, and the limit is unchanged |
| `CrptApi.ResetReopens` | CrptApi.java:73-75 | after a reset, the next call is accepted exactly when the limit is at least 1 |
| `CrptApi.CrptApiImpl.constructor` | CrptApi.java:43-47 | the stored limit is the clamped request and the counter starts at 0 |
| `CrptApi.CrptApiImpl.CreateDocument` | CrptApi.java:54-70 | the counter goes up by one, and the reply, the body sent and the new state are those `Call` gives for the old state |
| `CrptApi.CrptApiImpl.Run` | CrptApi.java:73-75 | the new state is `Reset` of the old: counter 0, nothing else changed |
| `CrptApi.IncrementAndGet` | CrptApi.java:55 | the as-written 32-bit `incrementAndGet`: the result is the 32-bit value congruent to `calls + 1` modulo 2^32 |
| `CrptApi.AdmitsAsWritten` | CrptApi.java:55 | the as-written admission test lets a call through exactly when the 32-bit counter is at its maximum (and wraps) or the incremented counter is at most the limit |
| `CrptApi.WrapAroundReadmits` | CrptApi.java:55 | with limit 0 and 2147483647 attempts counted, the as-written test lets the next call through, while `Call` rejects it |
| `Window.RunHistory` | CrptApi.java:49-75 | a history of calls and timer ticks yields one outcome per call and keeps the limit |
| `Window.CallsWithinWindow` | CrptApi.java:55-58 | with no tick and a starting counter `c`, the call at position `i` is accepted exactly when `c + i` is below the limit; the counter ends at `c` plus the number of calls |
| `Window.FreshWindow` | CrptApi.java:55-69 | from counter 0 with no tick, the first `limit` calls are accepted and every later one is rejected; exactly `min(n, limit)` of `n` calls get through |
| `Window.OnceRejectedAlwaysRejected` | CrptApi.java:55-58 | between two ticks, once a call is rejected, every later call is rejected |
| `Window.LimitZeroRejectsAll` | CrptApi.java:44-58 | with limit 0, every call of any history returns `false` and never reaches the transport |
| `Window.AtMostLimitPerHistory` | CrptApi.java:49-75 | a history with `k` ticks admits at most `limit * (k + 1)` calls, less what the first window had already used |
| `Window.RunAfterTick` | CrptApi.java:73-75 | after a tick, the rest of a history runs from counter 0, whatever came before |
| `Window.AtMostLimitPerWindow` | CrptApi.java:49-75 | the calls after the last tick of a history add exactly `min(n, limit)` accepted calls, so at most `limit` per window |
| `Window.WindowBetweenTicks` | CrptApi.java:49-75 | the calls between two ticks, whatever comes before and after, add exactly `min(n, limit)` accepted calls, so at most `limit` per window |
| `Window.BurstAcrossReset` | CrptApi.java:49-75 | the fixed-window edge effect: `limit` calls just before a tick and `limit` just after are all admitted, `2 * limit` in all |
| `Window.TwoPerWindow` | CrptApi.java:55-75 | with limit 2, calls one and two are accepted and call three is rejected; after a tick, call four is accepted |
| `Window.Drive` | CrptApi.java:49-75 | driving a `CrptApiImpl` through a history of `createDocument` calls and `run()` ticks leaves it in the state `RunHistory` gives and yields the same outcomes, so the history lemmas hold of the object |

## Left out

- HTTP transport: the client construction, the URL constants, the request
  building and the closing of the response are not modelled. Only the outcome
  counts: a status code or an I/O failure.
- JSON encoding: the field names and the `yyyy-MM-dd` date format are set by
  annotations read by the Jackson library. The encoder is an abstract function
  that writes text or fails.
- Scheduling: the constructor's `timeUnit` and the scheduled executor are
  wall-clock timing. Each firing of the timer is an explicit `Tick` or a call to
  `CrptApiImpl.Run`.
- Concurrency: each increment and each reset is one indivisible step of a
  sequential history. Races between a reset and in-flight calls are not
  modelled.
- Logging, the exception classes' constructors and the message constants are
  not modelled.
- The `CrptApi` interface is not modelled separately from its one
  implementation.
- Null references: `@NotNull` arguments and null record fields are not
  modelled.
- CrptApiImpl.CreateDocument: the counter is an unbounded `nat`, not a 32-bit
  `int` that wraps. See Findings.
- CrptApiImpl.CreateDocument: `sign` is accepted and not used, as in
  `createDocument`. No signing logic is modelled.

## Findings

| source | as written | input that shows it | evidently intended | confidence | as-written member | corrected member |
|---|---|---|---|---|---|---|
| CrptApi.java:55 | `calls.incrementAndGet() > requestLimit` on a 32-bit counter, which wraps from 2147483647 to -2147483648 | limit 0 and 2147483647 attempts in one window: the next attempt passes the test and is sent | a rejected window stays closed until the next reset, and limit 0 rejects every call | low: needs 2^31 attempts in one time unit; not executed | `CrptApi.AdmitsAsWritten`, `CrptApi.WrapAroundReadmits` | `CrptApi.Call`, `Window.LimitZeroRejectsAll`, `Window.OnceRejectedAlwaysRejected` |
