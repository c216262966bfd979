# IBAN field of the Finnish virtual-barcode form

The application is a single React form (`IbanForm`) that collects a Finnish
account number (IBAN), an amount and a due date, and asks the
`finnish-bank-utils` library to build a Finnish virtual payment barcode from
them. The only logic the repository itself contains is in the account-number
field:

- its change handler (`handleIbanChange`) filters what was typed down to ASCII
  letters, digits and spaces, deletes the spaces, cuts the rest into blocks of
  at most four characters and joins them with single spaces, writes that back
  into the field, clears the error message, and either runs the validity check
  (when exactly 18 letters and digits are present) or resets the field's
  validation class;
- its validity step (`validateIban`) removes all whitespace, asks the library
  whether the result is a valid Finnish IBAN, and sets the validation class to
  `is-valid` or `is-invalid`.

The model has two modules:

- `IbanFormat` (`iban_format.dfy`): the formatter as pure functions on strings
  (`KeepAllowed`, `RemoveSpaces`, `Chunks`, `JoinWithSpaces`, `Group`,
  `Format`, `StripWhitespace`) and the lemmas about them. `Alnums`, the letters
  and digits of a text in order, is the independent reference the formatter is
  specified against; `IsGrouped` states the block-of-four layout by character
  positions (a space at exactly every fifth position, none at the end).
- `IbanForm` (`iban_form.dfy`): the component state the handlers change, as a
  class `IbanFormState` with fields `iban`, `error` and `validationState`, and
  the handlers as methods `OnIbanChange` and `ValidateIban`. The library
  predicate `FinnishBankUtils.isValidFinnishIBAN` is source that is not part of
  this model; each handler takes it as a parameter, an arbitrary total
  predicate on strings, so nothing is assumed about what it accepts.

`src/App.js` contains no checksum or barcode-layout code: it hands IBAN
validation (line 73) and barcode construction (lines 93-98) to
`finnish-bank-utils`, so the model contains none.

## Model

| member | source | states |
|---|---|---|
| `IbanFormat.KeepAllowed` | src/App.js:48 | The filter's result holds only ASCII letters, digits and spaces. |
| `IbanFormat.KeepAllowedCounts` | src/App.js:48 | Every ASCII letter, digit and space of the input occurs in the filter's result exactly as often as in the input. |
| `IbanFormat.RemoveSpaces` | src/App.js:51 | Deleting spaces leaves no space. |
| `IbanFormat.RemoveSpacesCounts` | src/App.js:51 | Deleting spaces keeps every other character exactly as often as it occurs. |
| `IbanFormat.Chunks` | src/App.js:51 | The global match of `.{1,4}` cuts the compacted text into pieces of 1 to 4 characters, all but the last exactly 4, which concatenate back to the text. |
| `IbanFormat.JoinWithSpaces` | src/App.js:53 | Joining n pieces with single spaces adds exactly n - 1 characters to their total length. |
| `IbanFormat.JoinUngroups` | src/App.js:53 | Joining pieces that hold no space only inserts spaces: deleting them gives the pieces' concatenation back, in order. |
| `IbanFormat.Group` | src/App.js:51-53 | The compacted text regrouped (chunks of at most four joined by single spaces, `''` when there is no match): empty exactly when the text is empty, and a space-free text comes back when the inserted spaces are deleted; its layout is the Group* rows. |
| `IbanFormat.Format` | src/App.js:48-53 | The value written back into the field (the filter, then deleting spaces, then regrouping): deleting its spaces gives exactly the input's letters and digits, in their original order; its other properties are the Format* rows. |
| `IbanFormat.StripWhitespace` | src/App.js:73 | Removing `\s` leaves no JavaScript whitespace character. |
| `IbanFormat.StripWhitespaceCounts` | src/App.js:73 | Removing `\s` keeps every other character exactly as often as it occurs. |
| `IbanFormat.CompactIsAlnums` | src/App.js:48-51 | Filtering and then deleting spaces leaves exactly the input's letters and digits, in order. |
| `IbanFormat.GroupShape` | src/App.js:51-53 | Grouping a text of letters and digits gives a space at exactly every fifth position and none at the end. |
| `IbanFormat.GroupAlphabet` | src/App.js:51-53 | Grouping a text of letters and digits yields only letters, digits and spaces. |
| `IbanFormat.GroupLength` | src/App.js:51-53 | Grouping n > 0 characters gives n + (n - 1) / 4 characters; the empty text stays empty. |
| `IbanFormat.FormatAlphabet` | src/App.js:48-53 | Every character of the formatted value is an ASCII letter, digit or space. |
| `IbanFormat.FormatGrouped` | src/App.js:48-53 | The formatted value is blocks of four separated by single spaces, with a non-empty last block: no leading, trailing or doubled space. |
| `IbanFormat.FormatEmpty` | src/App.js:51-53 | The formatted value is empty if and only if the input has no letter or digit (an empty input included). |
| `IbanFormat.FormatLength` | src/App.js:51-53 | With n letters and digits in the input, the formatted value has n + (n - 1) / 4 characters, or none when n = 0. |
| `IbanFormat.FullIbanWidth` | src/App.js:51-53 | An input with 18 letters and digits formats to exactly 22 characters, the field's `maxLength` (line 120). |
| `IbanFormat.FormatIdempotent` | src/App.js:48-53 | Formatting an already formatted value changes nothing. |
| `IbanFormat.StripFormatted` | src/App.js:71-73 | The string handed to the library check, the formatted value without whitespace, is exactly the input's letters and digits. |
| `IbanForm.ClassFor` | src/App.js:74 | The validation class is `is-valid` exactly when the check holds and `is-invalid` exactly when it does not. |
| `IbanForm.IbanFormState.constructor` | src/App.js:13-21 | The field starts with the stored account number, or the empty string when none is stored; no error and no validation class. |
| `IbanForm.IbanFormState.ValidateIban` | src/App.js:71-77 | The check receives the value with all whitespace removed; the validation class becomes `is-valid` if it holds and `is-invalid` otherwise; nothing else changes. |
| `IbanForm.IbanFormState.OnIbanChange` | src/App.js:45-67 | The field shows the formatted input, the error is cleared, the check runs on the input's letters and digits exactly when there are 18 of them and the validation class is reset otherwise; the new value is a fixed point of the formatter, so feeding it back leaves the field unchanged. |

## Left out

- `FinnishBankUtils.isValidFinnishIBAN` and `FinnishBankUtils.formatFinnishVirtualBarCode`: library code that is not part of this model; the first is a predicate parameter of the handlers, the second is not modelled.
- The amount field and `validateAndGenerateBarcode`: they parse the amount with `parseFloat` and `valueAsNumber` and test for `NaN`, floating-point input handling that this model does not cover; the error messages they set are therefore not modelled either.
- The due date: `date-fns` formatting and the date picker are library and UI code.
- Reading and writing `localStorage` and the clipboard copy through `document.execCommand`: browser I/O. The stored account number enters only as the constructor's argument.
- The hard-coded reference number: it is only passed to the library.
- Rendering (JSX, CSS classes, the CODE128 barcode image) and the browser's own enforcement of `maxLength` on typed text: the handler is modelled for whatever text the browser hands it.
- React applies the state setters of one handler call together at the next render; the model applies them in order, which gives the same final state because each handler sets each field at most once.
- JavaScript strings are UTF-16 code units and the model's are Unicode scalar values; the filter keeps only ASCII characters, so the two agree on every result.
