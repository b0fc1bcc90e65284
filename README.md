# grocy-barcode: verified model of the scanner decoder, the mode loop and the provider combinator

grocy-barcode connects a barcode scanner to a Grocy inventory server. This project models in Dafny the three pieces of logic in it that are more than glue, and proves what they promise:

- **HID keystroke decoder** (`barcodehid`, module `BarcodeHid`, file `scanner.dfy`). A scanner that emulates a USB keyboard sends one keyboard usage ID per character. These are the Keyboard/Keypad page (0x07) codes of the USB HID Usage Tables, section 10. Every barcode ends with Enter (0x28). The device is a byte sequence read through a buffered reader, `BufReader`, with a cursor. `Scanner.Read` consumes one frame up to and including Enter. It drops the terminator and decodes the rest: zero bytes are skipped, 0x04..0x1d become `a`..`z`, and 0x1e..0x27 become `1`..`9`,`0`. Every other byte is dropped. If the stream ends before an Enter, the read fails with the empty string. Bytes are a `newtype byte` (0..255), so the proof also shows that the source's `uint8` arithmetic never wraps.
- **Mode-dispatch loop** (`grocybarcode.go`, module `GrocyBarcode`, file `grocybarcode.dfy`). `Start` keeps a current action, which starts as add-or-create. The barcodes `addcreate`, `consume` and `open` switch the action without invoking anything. Every other barcode is handed to the current action. An action's error is logged and the loop goes on. A read error ends the loop and is returned. The reader is modelled as the finite sequence of its read results; reading past the end is an end-of-stream error. Action outcomes are an oracle: the set of invocation numbers whose action fails. The loop's behaviour is the function `Dispatch`, and `Start` is proved equal to it.
- **First-success provider combinator** (`provider/multi.go`, module `Provider`, file `provider.dfy`). `Multi.Product` asks each provider in order for the barcode. It returns the product of the first one that succeeds and asks none after it. When all fail, it returns the zero `Product` and every error, joined in provider order. An empty `Multi` gives a nil error. Providers are total functions from barcode to response.

`wrappers.dfy` holds the `Option` type shared by the three modules.

## Model

| member | source | states |
|---|---|---|
| `BarcodeHid.KeyChar` | barcodehid/scanner.go:46-54 | a key code yields a character exactly when it lies in 0x04..0x1d or 0x1e..0x27; every character it yields is a lowercase letter or a decimal digit |
| `BarcodeHid.LetterKeys` | barcodehid/scanner.go:47-48 | each code kc in 0x04..0x1d yields the (kc - 0x04)-th letter of the alphabet "abcdefghijklmnopqrstuvwxyz", so 0x04 is 'a' and 0x1d is 'z' |
| `BarcodeHid.DigitKeys` | barcodehid/scanner.go:49-53 | codes 0x1e..0x26 yield '1'..'9' in order and 0x27 yields '0'; this is the usage table's order, not the rotated formula of the source |
| `BarcodeHid.KeyOf` | barcodehid/scanner.go:12-17 | every lowercase letter and digit has a key code that decodes to it (the mapping is onto) |
| `BarcodeHid.KeyOfKeyChar` | barcodehid/scanner.go:47-53 | no two recognised key codes yield the same character, so the mapping is a bijection onto lowercase letters and digits |
| `BarcodeHid.Decode` | barcodehid/scanner.go:39-57 | a decoded barcode is never longer than its frame |
| `BarcodeHid.DecodeIsLowerAlnum` | barcodehid/scanner.go:39-57 | every character of a decoded barcode is a lowercase letter or a decimal digit |
| `BarcodeHid.DecodeAppend` | barcodehid/scanner.go:40-55 | decoding preserves order and concatenation: decode(a + b) = decode(a) + decode(b) |
| `BarcodeHid.ZeroIsPadding` | barcodehid/scanner.go:41-44 | inserting a zero byte anywhere in a frame leaves the decoded barcode unchanged |
| `BarcodeHid.DecodeEncode` | barcodehid/scanner.go:39-57 | decoding the key strokes a keyboard sends for any string of lowercase letters and digits gives that string back |
| `BarcodeHid.DecodeExamples` | barcodehid/scanner.go:39-57 | [0x00,0x04,0x00] decodes to "a", [0x1e,0x1f,0x27] to "120", [0x04,0xff,0x05] to "ab", [0x1d,0x29,0xe1] to "z" and the empty frame to "" |
| `BarcodeHid.TrimSuffix` | barcodehid/scanner.go:37 | removes the trailing Enter when the frame ends with one and changes nothing otherwise; the result is a prefix of the frame |
| `BarcodeHid.DecodeKeystrokes` | barcodehid/scanner.go:39-57 | the decoding loop, with its skip of zero bytes and its switch, computes exactly `Decode` of the frame |
| `BarcodeHid.IndexOf` | barcodehid/scanner.go:32 | the frame ends at the first Enter at or after the cursor; no Enter lies before it, and none is found when the stream has none |
| `BarcodeHid.BufReader.ReadBytes` | barcodehid/scanner.go:32 | returns the bytes from the cursor up to and including the first delimiter and moves the cursor just past it; with no delimiter it returns the rest, reports end of file and leaves the cursor at the end |
| `BarcodeHid.New` | barcodehid/scanner.go:27-29 | a new scanner reads the device from its first byte through a fresh buffered reader |
| `BarcodeHid.Scanner.Read` | barcodehid/scanner.go:31-58 | with an Enter ahead, returns the decoded bytes before the first Enter, no error, and leaves the cursor just past that Enter; without one, returns "" and an error and no partial barcode |
| `BarcodeHid.EncodedFrame` | barcodehid/scanner.go:31-58 | a barcode sent after any earlier bytes is read back exactly, whatever follows it: its frame ends at its own terminator, which contributes no character |
| `BarcodeHid.ReadSuccessiveFrames` | barcodehid/scanner.go:31-58 | successive reads on one device return "120", then "" for an empty frame, then an error for the unterminated tail: each read leaves the later bytes for the next |
| `GrocyBarcode.Handler` | grocybarcode.go:41-51 | a barcode selects an action only when it is listed with that action in the mode table, and selects nothing otherwise; which barcodes those are is `HandlerTokens` |
| `GrocyBarcode.HandlerTokens` | grocybarcode.go:41-51 | "addcreate", "consume" and "open" select add-or-create, consume and open, and only they do; every other barcode, the empty one included, selects nothing |
| `GrocyBarcode.Dispatch` | grocybarcode.go:17-38 | the loop's behaviour: it stops at a read within the reader, or at its end |
| `GrocyBarcode.Start` | grocybarcode.go:17-39 | the loop's invocations, with their outcomes, and the read whose error it returns are exactly those of `Dispatch` from add-or-create |
| `GrocyBarcode.StopsAtFirstFailedRead` | grocybarcode.go:22-25 | every read before the one the loop stops at succeeded, and that one failed or lies past the end of the reader |
| `GrocyBarcode.OneInvocationPerDataBarcode` | grocybarcode.go:28-37 | before the loop stops there is exactly one invocation per barcode that is not a mode token, and none for a token |
| `GrocyBarcode.TokenStep` | grocybarcode.go:28-32 | one step of `Dispatch`: a mode token replaces the current action and invokes nothing in that iteration (a helper for `Start`'s proof; the promise over whole runs is `LatestTokenSelectsAction` and `OneInvocationPerDataBarcode`) |
| `GrocyBarcode.DataStep` | grocybarcode.go:34-37 | one step of `Dispatch`: any other barcode causes exactly one invocation of the current action with that exact barcode, and the loop continues with the same action (a helper for `Start`'s proof; the promise over whole runs is `OneInvocationPerDataBarcode`, `LatestTokenSelectsAction` and `ModePersists`) |
| `GrocyBarcode.LatestTokenSelectsAction` | grocybarcode.go:18-34 | each barcode that is not a token goes, unchanged, to the action selected by the last token read before it (or the action current at the start), as the invocation numbered by the data barcodes before it |
| `GrocyBarcode.InitialActionIsAddOrCreate` | grocybarcode.go:18 | before any token has been read, barcodes go to add-or-create |
| `GrocyBarcode.ModePersists` | grocybarcode.go:28-34 | while no token is read, the current action does not change and every invocation uses it |
| `GrocyBarcode.FailuresAreNotFatal` | grocybarcode.go:34-37 | which actions are invoked, with which barcodes, and where the loop stops do not depend on whether the actions fail |
| `GrocyBarcode.ReadErrorEndsLoop` | grocybarcode.go:22-25 | the loop stops at the first failed read, and nothing read after it is ever dispatched |
| `GrocyBarcode.ConsumeThenBarcode` | grocybarcode.go:28-34 | reading "consume" then "123" gives exactly one invocation, consume with "123", and no add-or-create |
| `GrocyBarcode.FailedActionThenNextBarcode` | grocybarcode.go:34-37 | when the action for "123" fails, "456" is still read and dispatched |
| `Provider.FirstSuccess` | provider/multi.go:10-14 | the first provider that answers without error: every provider before it failed; with none, all failed |
| `Provider.Errors` | provider/multi.go:16 | the errors collected by the loop: at most one per provider, and one for every provider exactly when all of them fail |
| `Provider.Join` | provider/multi.go:19 | errors.Join of the collected errors is nil exactly when there are none, and otherwise joins them all in order |
| `Provider.Multi.Product` | provider/multi.go:7-20 | returns the first success's product with a nil error after asking exactly the providers up to it; when all fail, returns the zero Product, all errors joined, after asking every provider; an empty Multi returns the zero Product and a nil error |
| `Provider.LaterProvidersIgnored` | provider/multi.go:11-14 | appending providers after a successful one never changes which provider answers; that none of them is asked is `Multi.Product`'s `asked == i + 1` |
| `Provider.AllErrorsKept` | provider/multi.go:16-19 | when every provider fails there is one error per provider, in provider order, each the one that provider returned |
| `Provider.EmptyMulti` | provider/multi.go:8-19 | with no providers nothing succeeds and the joined error is nil |

## Left out

- The Grocy HTTP client (grocy/grocy.go) is not part of this model. The three actions are abstract: each invocation is recorded with its barcode, and whether it fails comes from the oracle.
- The Open Food Facts client (off/openfoodfacts.go) is not part of this model. It is network code.
- The line-oriented text reader (barcodetext/text.go) is not part of this model. It is a library read of one line plus whitespace trimming.
- Configuration and startup (main.go, cmd/main.go) are not part of this model. They read environment variables, open devices and exit on fatal errors.
- Logging is left out. The only trace of a logged action error is the `failed` flag of its invocation.
- `Product.String` (provider/provider.go:12-14) is left out. It only returns the name.
- BarcodeHid.BufReader.ReadBytes: the end of the stream is the only read error modelled. Other I/O errors of the device and blocking until bytes arrive are not modelled.
- BarcodeHid.Scanner.Read: error values carry no message text. The wrapping "reading keystrokes" and "error reading barcode" errors are constructors.
- GrocyBarcode.Start: the Go loop has no bound and reads until a read fails. The model's reader is finite, so running out of reads is the end-of-stream error that ends the loop.
- Provider.Multi.Product: providers are pure functions of the barcode, so the model cannot record side effects of asking a provider. Only how many providers were asked (`asked`) shows the early exit, and each one asked is applied to the caller's barcode.
