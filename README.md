# Payment with an embedded message, sent through a Bitcoin node

The program is a script that drives a Bitcoin node over JSON-RPC. Nearly every
step is a call into the `bitcoin-core` client. This model covers the local logic
around those calls:

- in `send`:
  - the two guards on the unspent-output list: it must not be empty, and its
    total must reach the fixed payment of 100;
  - the greedy first-fit selection of inputs;
  - the two-entry output set (`addr` → 100, `"data"` → message hex);
  - the lowercase hex encoding of the message's UTF-8 bytes;
  - the create / fund / sign / broadcast / decode sequence, with the gate
    that refuses to broadcast an incompletely signed transaction;
- in `main`: the create-or-load wallet step.

The node is not modelled. Each of its replies is an input to the model: the
record `Send.Node` holds one `Result` per call, and a `Failure` carries the
thrown error's message. What the script asks of the node is returned as a trace
of calls with their arguments. This makes "no call after a failed guard" and
"no broadcast without a complete signature" statements about the trace.

Modules:

- `Wrappers` (wrappers.dfy): `Option`, `Result` and `Byte`.
- `Base16` (base16.dfy): lowercase hex as in section 8 of RFC 4648, with a
  decoder. This is the encoding `Buffer.toString('hex')` produces.
- `Utf8` (utf8.dfy): UTF-8 as in RFC 3629, with a decoder. This is the encoding
  `Buffer.from(message, 'utf8')` applies.
- `CoinSelection` (coin_selection.dfy): prefix sums, the first-fit stopping
  point, and the selection loop as a method with loop invariants.
- `Send` (send.dfy): the output set, the message hex, the errors, and `Send`
  itself. `Send` runs the guards and the selection, then hands the
  node-facing half to `CreateSignAndBroadcast`.
- `Wallet` (wallet.dfy): `String.prototype.includes`, and the create-or-load
  decision.

Amounts are `real` values in the node's unit (BTC), so sums and comparisons are
exact.

Some behaviours of the code are easy to misread; the model states them as written:

- A wallet-creation error that does not mention "Wallet already exists" is
  caught and dropped. The catch block has no `else` and does not rethrow. It is
  not propagated.
- The output set has only one entry when the destination address is the
  string `"data"`. The data entry is written second and replaces the payment.
- The text embedded in the transaction is the constant "We are all Satoshi!!".
  The `data` argument of `send` is never read.
- No error is raised after the selection loop. The total was already checked
  before the loop, and `FirstFitCovers` proves that the selection then always
  reaches the payment.

A failure of the final `decodeRawTransaction` call makes `send` throw after
the transaction has already been broadcast. `CreateSignAndBroadcast` states
this: a trace of five calls ends in the decode that follows the broadcast,
and the result is still a failure when that decode fails.

## Model

| member | source | states |
|---|---|---|
| `Base16.Encode` | javascript/index.js:19 | the hex text is twice as long as the bytes and uses only the digits 0-9 and a-f |
| `Base16.EncodeAt` | javascript/index.js:19 | byte i becomes digits 2i and 2i+1 of the text, high nibble first |
| `Base16.Decode` | javascript/index.js:19 | a hex text decodes exactly when its length is even and every character is a hex digit (0-9, a-f, and also A-F), to half as many bytes as it has digits |
| `Base16.DecodeEncode` | javascript/index.js:19 | decoding the hex of any bytes gives back those bytes |
| `Base16.EncodeDecode` | javascript/index.js:19 | every even-length lowercase hex text is the encoding of what it decodes to |
| `Base16.EncodeInjective` | javascript/index.js:19 | different byte sequences get different hex texts |
| `Utf8.EncodeChar` | javascript/index.js:19 | each character takes one to four bytes, and exactly one byte when it is below U+0080 |
| `Utf8.Encode` | javascript/index.js:19 | a string of n characters encodes to between n and 4n bytes |
| `Utf8.DecodeChar` | javascript/index.js:19 | a decoded character consumes one to four bytes, all present in the input |
| `Utf8.Decode` | javascript/index.js:19 | a decoded string has no more characters than the input has bytes |
| `Utf8.DecodeEncodeChar` | javascript/index.js:19 | the encoding of a character decodes back to that character and its length, whatever bytes follow |
| `Utf8.DecodeEncode` | javascript/index.js:19 | decoding the UTF-8 of any string gives back the string |
| `Utf8.EncodeAscii` | javascript/index.js:18-19 | ASCII text such as the embedded message encodes one byte per character, equal to its code |
| `Send.EmbeddedHex` | javascript/index.js:18-19 | the embedded hex text has twice as many digits as the message has UTF-8 bytes, all of them lowercase hex; it decodes to those bytes, and they decode back to the message |
| `Send.MessageBytes` | javascript/index.js:18-19 | the hard-coded "We are all Satoshi!!" is ASCII, so its UTF-8 bytes are its 20 character codes |
| `Send.HexOfHi` | javascript/index.js:19 | the message "hi" is embedded as "6869" |
| `CoinSelection.Project` | javascript/index.js:37 | each selected input is the `{txid, vout}` of the output at the same position |
| `CoinSelection.Sum` | javascript/index.js:28 | the left fold of the amounts equals the right fold: the first amount plus the total of the rest |
| `CoinSelection.SumSnoc` | javascript/index.js:28 | the left-fold total grows by exactly the amount of the next output |
| `CoinSelection.FirstFitFrom` | javascript/index.js:36-42 | searching from a given prefix length, the result is no shorter than that length, every prefix in between falls short of 100, and the result covers 100 or is the whole list |
| `CoinSelection.FirstFitLength` | javascript/index.js:36-42 | the first-fit stopping point: every shorter prefix sums below 100, and this prefix reaches 100 or is the whole list |
| `CoinSelection.FirstFitUnique` | javascript/index.js:36-42 | only one prefix length has the first-fit property, so the selection is determined by the list |
| `CoinSelection.FirstFitCovers` | javascript/index.js:28-42 | when the whole list totals at least 100, the selection is non-empty and its total is at least 100 |
| `CoinSelection.TwoOutputsExample` | javascript/index.js:34-42 | outputs of 60 and 50 are both selected, as `{a,0}` and `{b,1}`, with total 110 |
| `CoinSelection.SelectInputs` | javascript/index.js:34-42 | the loop takes the first-fit prefix in input order, `inputs` is its `{txid, vout}` projection, and `inputAmount` is its total |
| `Send.Outputs` | javascript/index.js:45-48 | the output set's keys are `addr` and `"data"`, `"data"` maps to the hex, `addr` maps to 100 unless it is `"data"`, and there are two entries, or one when they collide |
| `Send.PaymentKeptIffAddressNotData` | javascript/index.js:45-48 | the payment of 100 is in the output set exactly when the address is not `"data"` |
| `Send.ErrorMessage` | javascript/index.js:23-60 | an error from the node is rethrown with its own message; the errors `send` raises itself have non-empty texts (that the insufficient-funds text does not depend on the amount is `InsufficientFundsMessageIgnoresAmount`) |
| `Send.LocalErrorMessagesDistinct` | javascript/index.js:23-60 | "No unspent outputs available", the insufficient-funds text and "Transaction signing failed" are three different messages |
| `Send.BroadcastCountSnoc` | javascript/index.js:64 | appending a call to a trace adds one broadcast exactly when that call is `sendRawTransaction` |
| `Send.InsufficientFundsMessageIgnoresAmount` | javascript/index.js:30 | as written, the insufficient-funds message is the literal text with `${totalAmount}`, whatever the total |
| `Send.InsufficientFundsMessage` | javascript/index.js:30 | the intended message is the amount's text between the two fixed parts (46 characters in all) |
| `Send.InsufficientFundsMessageShowsAmount` | javascript/index.js:30 | the intended message determines the amount it shows |
| `Send.CreateSignAndBroadcast` | javascript/index.js:50-67 | calls run in order: create, fund, sign, broadcast, decode; each passes on the previous reply; each successful step is followed by the next call, and a trace of five calls means the broadcast succeeded; broadcast happens once, and only after a complete signature; an incomplete signature gives "Transaction signing failed" with no broadcast; every other failure is `Rpc` of the first failing call's own message; the result is the broadcast txid exactly when every call succeeds; node errors pass through unchanged |
| `Send.Send` | javascript/index.js:15-75 | `listUnspent` is called first; an RPC error, a missing or empty list, and a total below 100 each fail with no further call; a transaction is built exactly when the total covers 100, from the first-fit inputs and the two-entry outputs; the fund, sign and decode calls carry the previous replies, and each successful step is followed by the next call; at most one broadcast, only after a complete signature; success exactly when every step succeeds, returning the broadcast txid; node errors are rethrown unchanged: past the guards every failure other than the sign gate's is `Rpc` of the first failing call's message |
| `Wallet.Includes` | javascript/index.js:88 | a text that starts with the part includes it, and a text only includes a part no longer than itself |
| `Wallet.IncludesIffOccurs` | javascript/index.js:88 | `includes` holds exactly when the text occurs at some position |
| `Wallet.EnsureWallet` | javascript/index.js:85-91 | the step always tries `createWallet("testwallet")` first and makes at most one more call; when creation succeeds it makes no other call and raises no error |
| `Wallet.LoadIffAlreadyExists` | javascript/index.js:85-91 | `loadWallet` is called exactly when creation failed with a message containing "Wallet already exists" |
| `Wallet.OnlyLoadFailureEscapes` | javascript/index.js:85-91 | an error ends the run exactly when the load was attempted and failed, and that error is the load's |
| `Wallet.OtherCreateErrorsSwallowed` | javascript/index.js:87-91 | any other creation error is dropped: no load, nothing escapes |

## Left out

- Send: the `data` argument is dropped because the source never reads it. The text the source hard-codes at javascript/index.js:18 is the `message` parameter, so the contract holds for any message. `MessageBytes` covers the constant itself.
- Send: arguments are not passed to the node. Each reply is an independent input, so the model assumes nothing about how the node computes it.
- Send: transaction serialisation, fee funding, change placement and signature validity are not modelled. They are the node's work, and their results are opaque strings here.
- Send.Outputs: a JavaScript object keeps its keys in insertion order (payment first, then `data`), and the node takes output positions from that order; `changePosition: 1` relies on it. A Dafny map has no order, so the model does not capture output positions.
- Send: the fund options `feeRate: 21` and `changePosition: 1` are not recorded in the trace. They only feed the node.
- The full hex of the constant message ("57652061...2121") is not proved as a literal. Unrolling both encoders over the 20-character constant is too costly for the verifier. `MessageBytes` gives its UTF-8 bytes as its character codes, `Base16.EncodeAt` gives the two digits of each byte, and `EmbeddedHex` gives the round trip.
- `main` beyond the wallet step is not modelled: `getBlockchainInfo`, `getNewAddress`, `generateToAddress(200, ...)`, `getBalance`, the call to `send`, and the final catch that logs the error and exits normally. These are RPC orchestration with no local decisions.
- Writing the txid to `out.txt`, and all `console.log`/`console.error` output, are I/O and are not modelled.
- `async`/`await` is modelled as plain sequential steps, since one call at a time is in flight.
- Amounts are exact reals. The IEEE-754 rounding of JavaScript numbers is not modelled.
- JavaScript strings are UTF-16. A lone surrogate, which `Buffer.from` would replace with EF BF BD, cannot occur in a Dafny string of scalar values.
- Ill-typed node replies are not modelled: a UTXO without an `amount`, or an error without a `message` (where `e.message.includes` would itself throw).
- Wallet.EnsureWallet: the RPC errors of `createWallet` and `loadWallet` are reduced to their message text.

## Findings

| source | as written | input that shows it | evidently intended | confidence | as-written member | corrected member |
|---|---|---|---|---|---|---|
| javascript/index.js:30 | the message is a double-quoted string, so `${totalAmount}` stays in the text literally | any unspent list whose total is below 100, e.g. one output of 10: the message reads "Available: ${totalAmount}" | a template literal showing the available total | high (not executed) | `Send.InsufficientFundsMessageIgnoresAmount` | `Send.InsufficientFundsMessageShowsAmount` |
