# ms-example-pos-integration: the amount field, the activation-code display and the view model, in Dafny

The demo application drives a closed point-of-sale SDK from one screen. The
logic it owns is small, and this project models all of it:

- **Activation-code display** (`TextTransformer.kt`). The raw code is shown in
  chunks of four characters joined by `-` (`767747582904` becomes
  `7677-4758-2904`). Two piecewise maps move the cursor between raw and
  displayed offsets. The field stores only the first twelve digits typed
  (`ExampleSection.kt:218`).
- **View model** (`ExampleViewModel.kt`). A class with mutable fields:
  - the message log, which only grows by `"==> "`-marked entries and can be cleared;
  - the chosen demo application and its activation code;
  - the message id;
  - the amount string. It is checked on every keystroke and parsed as a
    `BigDecimal` for a sale, falling back to zero.

Modules:

| file | module | what it holds |
|---|---|---|
| `wrappers.dfy` | `Wrappers` | `Option`, for Kotlin's nullable results |
| `kotlin_text.dfy` | `KotlinText` | `count`, `filter`, `take`, `chunked`, `joinToString`, `split`, `getOrNull` on strings, and an `IndexOf` helper that locates the decimal point |
| `java_decimal.dfy` | `JavaDecimal` | non-negative `BigDecimal` values and `BigDecimal(String)` for plain digit strings, with `toPlainString` as the inverse the round trip is stated with |
| `text_transformer.dfy` | `TextTransformer` | the display text, the two offset maps, and the intended back map |
| `pos_api_util.dfy` | `PosApiUtil` | `DemoApp` and its `PosApiInitParam`, `valueOf` |
| `example_section.dfy` | `ExampleSection` | the activation-code field's digit filter |
| `example_view_model.dfy` | `ExampleViewModel` | the amount rules, the parse-or-zero, and the `ExampleViewModel` class |

The class keeps `Valid()` true: the amount is well formed, every log entry
carries the marker, and the activation code is at most twelve digits. Every
method's `ensures` gives the whole new state. The `modifies` clauses say
which fields a method may change:
- a keystroke changes only `amountStr`;
- `restoreDefaultActivationCode` changes only `activationCode`;
- `changeDemoApp` changes only `demoApp` and `activationCode`.

The model follows the code as written:
- The raw-to-display map (`TextTransformer.kt:17-24`) has four ranges, `1..4`, `5..8`, `9..12` and `13..16`. It adds 0, 1, 2 and 3 respectively, and leaves every other offset unchanged.
- The display-to-raw map (`TextTransformer.kt:27-34`) has the ranges `1..4`, `5..9`, `11..14` and `15..19`. Display offset 10 is in none of them and is left unchanged (see Findings).
- The third amount rule (`ExampleViewModel.kt:59-61`) measures the second piece of `split(".")`. Once a second point has been refused at line 58, that piece is everything after the point. `PieceAfterPoint` and `SanitizeAmountRules` prove this.

## Model

| member | source | states |
|---|---|---|
| `KotlinText.Chunked` | app/src/main/java/com/theminesec/example/pos/util/TextTransformer.kt:8 | the chunks concatenate back to the input; there are none only for the empty string; every chunk but the last has exactly the chunk size, and the last has 1..size characters |
| `KotlinText.JoinToString` | app/src/main/java/com/theminesec/example/pos/util/TextTransformer.kt:8 | joining n > 0 parts gives their total length plus n - 1 separators |
| `KotlinText.Count` | app/src/main/java/com/theminesec/example/pos/ui/ExampleViewModel.kt:58 | the count is at most the length, and is zero exactly when the character does not occur |
| `KotlinText.CountAppend` | app/src/main/java/com/theminesec/example/pos/ui/ExampleViewModel.kt:58 | counting over a concatenation adds the counts of the parts |
| `KotlinText.IndexOf` | app/src/main/java/com/theminesec/example/pos/ui/ExampleViewModel.kt:66 | a helper locating the decimal point for `PieceAfterPoint` and for the grammar of `BigDecimal`: -1 exactly when the character is absent, otherwise a position holding it with none before |
| `KotlinText.OnlyOccurrence` | app/src/main/java/com/theminesec/example/pos/ui/ExampleViewModel.kt:58-59 | with at most one occurrence, any position holding the character is the first one |
| `KotlinText.Filter` | app/src/main/java/com/theminesec/example/pos/ui/ExampleViewModel.kt:62 | the result is no longer than the input, holds only kept characters, and equals the input when every character is kept |
| `KotlinText.FilterAppend` | app/src/main/java/com/theminesec/example/pos/ui/ExampleViewModel.kt:62 | filtering distributes over concatenation |
| `KotlinText.FilterCount` | app/src/main/java/com/theminesec/example/pos/ui/ExampleViewModel.kt:62 | filtering keeps every occurrence of a kept character |
| `KotlinText.FilterSource` | app/src/main/java/com/theminesec/example/pos/ui/ExampleViewModel.kt:62 | each filtered character comes from an original position with at least as many characters after it |
| `KotlinText.Take` | app/src/main/java/com/theminesec/example/pos/ui/ExampleSection.kt:218 | `take(n)` gives a prefix of the string, of length n or the whole string when shorter |
| `KotlinText.Split` | app/src/main/java/com/theminesec/example/pos/ui/ExampleViewModel.kt:59 | one more piece than separators, and no piece holds the separator |
| `KotlinText.JoinSplit` | app/src/main/java/com/theminesec/example/pos/ui/ExampleViewModel.kt:59 | joining the pieces of a split with the same separator gives the string back |
| `KotlinText.SplitAfterPart` | app/src/main/java/com/theminesec/example/pos/ui/ExampleViewModel.kt:59 | splitting at a separator after a separator-free part gives that part, then the split of the rest |
| `KotlinText.SplitJoin` | app/src/main/java/com/theminesec/example/pos/util/TextTransformer.kt:8 | splitting a join of n > 0 separator-free parts gives exactly those parts back, so join and split are inverse |
| `KotlinText.SplitAtFirst` | app/src/main/java/com/theminesec/example/pos/ui/ExampleViewModel.kt:59 | at the first separator, piece 0 is what precedes it and piece 1 starts right after it |
| `KotlinText.SplitWithoutSeparator` | app/src/main/java/com/theminesec/example/pos/ui/ExampleViewModel.kt:59 | a string without the separator splits into itself alone |
| `TextTransformer.TransformActivationCode` | app/src/main/java/com/theminesec/example/pos/util/TextTransformer.kt:8 | up to four characters are shown unchanged; a longer code shows its first four characters, then a dash |
| `TextTransformer.TransformUnfold` | app/src/main/java/com/theminesec/example/pos/util/TextTransformer.kt:8 | a longer code is shown as its first four characters, a dash, then the rest shown the same way |
| `TextTransformer.TransformLength` | app/src/main/java/com/theminesec/example/pos/util/TextTransformer.kt:8 | an empty code shows as empty; n > 0 characters show as n + (n - 1) / 4 |
| `TextTransformer.TransformAt` | app/src/main/java/com/theminesec/example/pos/util/TextTransformer.kt:8 | raw character k is shown at position k + k / 4 |
| `TextTransformer.TransformSeparatorAt` | app/src/main/java/com/theminesec/example/pos/util/TextTransformer.kt:8 | every displayed position i with i mod 5 = 4 holds the dash |
| `TextTransformer.StripDashes` | app/src/main/java/com/theminesec/example/pos/util/TextTransformer.kt:8 | dash removal leaves no dash, never lengthens the text, and leaves a text without dashes as it is |
| `TextTransformer.StripDashesRoundTrip` | app/src/main/java/com/theminesec/example/pos/util/TextTransformer.kt:8 | removing the dashes from the display gives back any code without dashes |
| `TextTransformer.DigitsRoundTrip` | app/src/main/java/com/theminesec/example/pos/util/TextTransformer.kt:8 | the same for every digits-only code |
| `TextTransformer.DefaultCodeDisplay` | app/src/main/java/com/theminesec/example/pos/util/TextTransformer.kt:8 | `767747582904` is shown as `7677-4758-2904` |
| `TextTransformer.OriginalToTransformed` | app/src/main/java/com/theminesec/example/pos/util/TextTransformer.kt:17-24 | for 1..16: the offset plus the dashes in front of that character, (offset - 1) / 4; every other offset unchanged |
| `TextTransformer.TransformedToOriginal` | app/src/main/java/com/theminesec/example/pos/util/TextTransformer.kt:27-34 | for 1..19 except 10: the offset minus the dashes before it, offset / 5; 10, and everything outside 1..19, unchanged |
| `TextTransformer.TransformedToOriginalIntended` | app/src/main/java/com/theminesec/example/pos/util/TextTransformer.kt:26-34 | the intended back map: offset - offset / 5 on all of 0..19, unchanged elsewhere |
| `TextTransformer.OriginalToTransformedIncreasing` | app/src/main/java/com/theminesec/example/pos/util/TextTransformer.kt:17-24 | strictly increasing on 0..16 |
| `TextTransformer.LeftInverse` | app/src/main/java/com/theminesec/example/pos/util/TextTransformer.kt:17-34 | display-to-raw undoes raw-to-display exactly at the offsets outside 17..19 (17 goes to 17 and back to 14) |
| `TextTransformer.LeftInverseIntended` | app/src/main/java/com/theminesec/example/pos/util/TextTransformer.kt:17-34 | the intended back map undoes the forward map at the same offsets |
| `TextTransformer.BackMapsAgree` | app/src/main/java/com/theminesec/example/pos/util/TextTransformer.kt:27-34 | the back map as written and the intended one differ exactly at offset 10 |
| `TextTransformer.CursorAfterSameCharacter` | app/src/main/java/com/theminesec/example/pos/util/TextTransformer.kt:10-24 | for codes of at most 16 characters and 1 <= o <= length, the display character just before the mapped cursor is raw character o |
| `TextTransformer.CursorInRange` | app/src/main/java/com/theminesec/example/pos/util/TextTransformer.kt:17-24 | for codes of at most 16 characters, raw offsets 0..length map into 0..display length, and the end maps to the end (12 to 14) |
| `TextTransformer.StripFirstChunk` | app/src/main/java/com/theminesec/example/pos/util/TextTransformer.kt:8 | the first chunk and its dash contribute exactly the chunk's characters once dashes are removed |
| `TextTransformer.CharactersBefore` | app/src/main/java/com/theminesec/example/pos/util/TextTransformer.kt:8 | the first t displayed characters hold t - t / 5 raw characters |
| `TextTransformer.CursorBackIntended` | app/src/main/java/com/theminesec/example/pos/util/TextTransformer.kt:26-34 | for codes of at most 16 characters, the intended back map gives the number of raw characters in front of the display cursor, always within 0..length |
| `TextTransformer.CursorBack` | app/src/main/java/com/theminesec/example/pos/util/TextTransformer.kt:27-34 | the back map as written does the same at every display offset but 10 |
| `TextTransformer.CursorBackAtTen` | app/src/main/java/com/theminesec/example/pos/util/TextTransformer.kt:27-34 | for codes of 9..16 characters, eight raw characters precede display offset 10, but the back map answers 10 |
| `TextTransformer.CursorBackAtTenOutOfRange` | app/src/main/java/com/theminesec/example/pos/util/TextTransformer.kt:27-34 | for the nine-digit code `767747582` (display length 11) the back map's answer at 10 is past the raw code's end |
| `PosApiUtil.ValueOf` | app/src/main/java/com/theminesec/example/pos/ui/ExampleViewModel.kt:76 | a found entry has the asked name; nothing found means no entry has that name |
| `PosApiUtil.ValueOfName` | app/src/main/java/com/theminesec/example/pos/util/PosApiUtil.kt:3-9 | every entry is found by its own name |
| `ExampleSection.ActivationCodeInput` | app/src/main/java/com/theminesec/example/pos/ui/ExampleSection.kt:218 | the stored code is at most twelve digits: a prefix of the typed digits, as long as they are up to twelve; a valid code is kept unchanged |
| `ExampleSection.ActivationCodeInputIdempotent` | app/src/main/java/com/theminesec/example/pos/ui/ExampleSection.kt:218 | filtering a filtered code changes nothing |
| `ExampleSection.FieldDisplay` | app/src/main/java/com/theminesec/example/pos/ui/ExampleSection.kt:218-222 | whatever is typed, the stored code is shown in at most 14 characters, its raw cursor positions map into the display, and dash removal restores it |
| `JavaDecimal.DigitsToNatAppend` | app/src/main/java/com/theminesec/example/pos/ui/ExampleViewModel.kt:66 | the digits of a concatenation are the left part's value shifted past the right part plus the right part's value |
| `JavaDecimal.NatToDigits` | app/src/main/java/com/theminesec/example/pos/ui/ExampleViewModel.kt:66 | a non-empty string of digits denoting the number |
| `JavaDecimal.PadZeros` | app/src/main/java/com/theminesec/example/pos/ui/ExampleViewModel.kt:66 | left padding with zeros reaches the width and keeps the value |
| `JavaDecimal.ToPlainString` | app/src/main/java/com/theminesec/example/pos/ui/ExampleViewModel.kt:66 | not called by the app; the inverse the round trip is stated with: scale 0 gives the digits of the value, otherwise digits, a point `scale` places from the right, and at least one digit before it |
| `JavaDecimal.ParseDecimal` | app/src/main/java/com/theminesec/example/pos/ui/ExampleViewModel.kt:66 | `BigDecimal(amountStr)`: a string parses only if it holds a digit and nothing but digits and points; every other string is the `NumberFormatException` |
| `JavaDecimal.ParseWithoutPoint` | app/src/main/java/com/theminesec/example/pos/ui/ExampleViewModel.kt:66 | a non-empty run of digits parses as that integer with scale 0 |
| `JavaDecimal.ParseWithPoint` | app/src/main/java/com/theminesec/example/pos/ui/ExampleViewModel.kt:66 | digits, a point, digits parse with scale = number of digits after the point |
| `JavaDecimal.ParsePlainString` | app/src/main/java/com/theminesec/example/pos/ui/ExampleViewModel.kt:66 | parsing what `toPlainString` writes gives back the same decimal, scale included |
| `JavaDecimal.ParseValue` | app/src/main/java/com/theminesec/example/pos/ui/ExampleViewModel.kt:66 | a parsed value is the digits before the point shifted by the scale plus the digits after it, with scale = characters after the point |
| `JavaDecimal.ParseAcceptsDigits` | app/src/main/java/com/theminesec/example/pos/ui/ExampleViewModel.kt:65-69 | a string of digits and at most one point parses exactly when it holds a digit |
| `JavaDecimal.ParseExampleFraction` | app/src/main/java/com/theminesec/example/pos/ui/ExampleViewModel.kt:66 | `3.14` parses as 314 with scale 2 |
| `JavaDecimal.ParseExampleInteger` | app/src/main/java/com/theminesec/example/pos/ui/ExampleViewModel.kt:47 | the initial amount `2` parses as 2 with scale 0 |
| `JavaDecimal.ParseExampleFailures` | app/src/main/java/com/theminesec/example/pos/ui/ExampleViewModel.kt:65-69 | neither `""` nor `"."` parses |
| `ExampleViewModel.SanitizeAmount` | app/src/main/java/com/theminesec/example/pos/ui/ExampleViewModel.kt:55-63 | a keystroke either keeps the previous amount or stores the incoming text filtered to digits and points |
| `ExampleViewModel.PieceAfterPoint` | app/src/main/java/com/theminesec/example/pos/ui/ExampleViewModel.kt:59 | with at most one point, the `split` piece after it is everything after the point; without a point there is none |
| `ExampleViewModel.SanitizeAmountRules` | app/src/main/java/com/theminesec/example/pos/ui/ExampleViewModel.kt:57-62 | refused (amount unchanged) when over 12 characters, when holding two points or more, or when more than two characters follow a point; otherwise the filtered text is stored |
| `ExampleViewModel.FilterKeepsAmountShape` | app/src/main/java/com/theminesec/example/pos/ui/ExampleViewModel.kt:62 | filtering an accepted text gives a well-formed amount |
| `ExampleViewModel.SanitizeAmountPreserves` | app/src/main/java/com/theminesec/example/pos/ui/ExampleViewModel.kt:47-62 | every keystroke keeps the amount well formed: at most 12 characters, all digits or points, at most one point, at most two characters after it |
| `ExampleViewModel.SanitizeAmountRefusesThirdDecimal` | app/src/main/java/com/theminesec/example/pos/ui/ExampleViewModel.kt:59-61 | `12.345` is refused |
| `ExampleViewModel.SanitizeAmountRefusesSecondPoint` | app/src/main/java/com/theminesec/example/pos/ui/ExampleViewModel.kt:58 | `1.2.3` is refused |
| `ExampleViewModel.SanitizeAmountDropsLetter` | app/src/main/java/com/theminesec/example/pos/ui/ExampleViewModel.kt:62 | `12.5a` is stored as `12.5` |
| `ExampleViewModel.ParseAmount` | app/src/main/java/com/theminesec/example/pos/ui/ExampleViewModel.kt:65-69 | a well-formed amount parses exactly when it holds a digit, then with at most two fraction digits; without a digit nothing parses |
| `ExampleViewModel.AmountForSale` | app/src/main/java/com/theminesec/example/pos/ui/ExampleViewModel.kt:65-69 | a well-formed amount with a digit gives its parsed decimal (scale at most 2); an amount without a digit gives zero |
| `ExampleViewModel.DefaultCodesAreCodes` | app/src/main/java/com/theminesec/example/pos/util/PosApiUtil.kt:3-9 | every demo application's default code is exactly twelve digits |
| `ExampleViewModel.ExampleViewModel.constructor` | app/src/main/java/com/theminesec/example/pos/ui/ExampleViewModel.kt:22-53 | empty log, `MSA` with its default code, empty transaction id, passcode `123456`, the drawn message id, `USD`, auto-dismiss on, amount `2`; the invariant holds |
| `ExampleViewModel.ExampleViewModel.WriteMessage` | app/src/main/java/com/theminesec/example/pos/ui/ExampleViewModel.kt:25-31 | the log becomes the old log followed by `"==> " + message`; nothing else changes |
| `ExampleViewModel.ExampleViewModel.ClearLog` | app/src/main/java/com/theminesec/example/pos/ui/ExampleViewModel.kt:33 | the log becomes empty |
| `ExampleViewModel.ExampleViewModel.HandleInputAmt` | app/src/main/java/com/theminesec/example/pos/ui/ExampleViewModel.kt:55-63 | only `amountStr` changes, to the sanitised value, which stays well formed |
| `ExampleViewModel.ExampleViewModel.GetAmountForSale` | app/src/main/java/com/theminesec/example/pos/ui/ExampleViewModel.kt:65-69 | the parsed amount when it holds a digit (scale at most 2), zero when it holds none |
| `ExampleViewModel.ExampleViewModel.ResetRandomPosMessageId` | app/src/main/java/com/theminesec/example/pos/ui/ExampleViewModel.kt:71-73 | only `posMessageId` changes, to the given id |
| `ExampleViewModel.ExampleViewModel.ChangeDemoApp` | app/src/main/java/com/theminesec/example/pos/ui/ExampleViewModel.kt:75-78 | for a known name: that application, with its default code; for an unknown name: nothing changes; nothing else ever changes |
| `ExampleViewModel.ExampleViewModel.RestoreDefaultActivationCode` | app/src/main/java/com/theminesec/example/pos/ui/ExampleViewModel.kt:80-82 | only `activationCode` changes, to the current application's default |
| `ExampleViewModel.ExampleViewModel.EditActivationCode` | app/src/main/java/com/theminesec/example/pos/ui/ExampleSection.kt:218 | only `activationCode` changes, to the filtered typed text |

## Left out

- The Compose screen (`ExampleSection.kt` apart from line 218), the SDK requests and responses, and the Gson printing of responses are not part of this model. `Title.kt` and `settings.gradle.kts` are not part of this model either.
- `TransformActivationCode` returns only the display text. The `TransformedText` and `AnnotatedString` wrappers carry no logic. The offset maps are the two module functions.
- `WriteMessage` and `ClearLog` run synchronously. The coroutine launch and the `StateFlow` emission are left out.
- `ResetRandomPosMessageId` takes the id as a parameter. `UUID.randomUUID()` is random; the constructor receives the id the init block would draw.
- `Log.d` in `handleInputAmt` is logging only and is left out.
- `SanitizeAmount` and `HandleInputAmt` measure lengths in Unicode code points. Kotlin's `String.length` counts UTF-16 units, so a character outside the Basic Multilingual Plane counts once here and twice in the app. A pasted `12345678901😀` is stored here as `12345678901`, while the app refuses it. The amount invariant holds either way, and the number keyboard cannot type such characters.
- `IsDigit` accepts the ASCII digits only. Kotlin's `Char.isDigit` also accepts other Unicode digits.
- `JavaDecimal.ParseDecimal` covers plain strings of digits with at most one point. Signs, exponents and whitespace count as parse failures here, although `BigDecimal` accepts some of them. The amount field can never hold such characters, because its filter removes them.
- `JavaDecimal.Decimal` has no sign, because the amount can never be negative.
- `cachedTransactionId`, `merchantAdminPasscode` and `autoDismissTransaction` are modelled as fields with their initial values only. The screen writes them directly and no operation of the view model touches them.
- `activationCode` has a public setter, but the screen writes it only through the digit filter at `ExampleSection.kt:218`. The model offers only that path (`EditActivationCode`), so `Valid()` can require a code of at most twelve digits.
- `KotlinText.Chunked` requires a positive chunk size; Kotlin throws for any other size. The code only ever passes 4.

## Findings

| source | as written | input that shows it | evidently intended | confidence | as-written member | corrected member |
|---|---|---|---|---|---|---|
| app/src/main/java/com/theminesec/example/pos/util/TextTransformer.kt:27-34 | display offset 10, right after the second dash, falls into no range and maps to 10 | code `767747582`, shown as `7677-4758-2` (11 characters): display offset 10 maps to raw offset 10, but the code has 9 characters; for any code of 9 to 16 characters, 8 raw characters precede that offset | the second range is `10..14 -> -2`, so offset 10 maps to 8, like 5 and 15 after the other dashes | not executed; high (every other range boundary follows the same pattern) | `TextTransformer.CursorBackAtTen` | `TextTransformer.CursorBackIntended` |

Both back maps are in the model. `TextTransformer.TransformedToOriginal` is the code as written, and `CursorBackAtTenOutOfRange` shows its out-of-range answer. `TextTransformer.TransformedToOriginalIntended` is the corrected map. `CursorBackIntended` proves it gives the number of raw characters in front of the cursor at every display offset. `CursorBack` proves the as-written map agrees everywhere but offset 10.
