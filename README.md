# boilrs — a verified model of its decision core

boilrs is a small interactive program (`src/main.rs`). It asks for a
language, prints a fixed "Hello, world!" program for it, and asks whether to
save it. On "yes" it writes the program to `boilerplate.<ext>` in the current
directory. This project models everything in that program that is not input
or output:

- normalising the language line (`trim`, then `to_lowercase`);
- the `match` that picks one of three template bodies or ends the run with
  "Unsupported language";
- the three template constructors;
- the separately written `match` in `save_to_file` that picks the extension,
  with its `txt` fallback, and the `boilerplate.<ext>` file name;
- the save confirmation (`trim` plus `eq_ignore_ascii_case("yes")`);
- `main`'s control flow, as a total function
  `Run(langLine, saveLine): Outcome`. `Outcome` is `Unsupported`,
  `NotSaved(body)` or `Saved(FileWrite(path, content))`.

Two modules:

- `str_ops.dfy` (module `StrOps`) models the Rust string operations the
  program calls: `trim` as two index scans, ASCII lower-casing, and
  `eq_ignore_ascii_case`. Lower-casing maps each of A-Z to its letter in
  a-z and leaves every other character alone. `trim` keeps a window of its input with only whitespace around it, and it
  is the only function that does so (`TrimSplits`, `TrimUnique`). Padding
  does not change its result (`TrimPadded`). It cuts two strings that are
  equal up to ASCII case at the same places (`TrimCaseFold`).
- `boilrs.dfy` (module `Boilrs`) models `main.rs` itself. The datatype
  `Language` is a single reference table that holds each language's key,
  body and extension together. The program's two `match` expressions,
  `Dispatch` and `ExtensionFor`, are proved to agree with this table.
  Together, the two proofs show that the two tables in the source have not
  drifted apart (`TablesAgree`).

`main.rs` accepts only "yes" in any ASCII case, always writes to the current
directory, knows three languages, and panics if the write fails; the panic is
not modelled.

## Model

| member | source | states |
|---|---|---|
| StrOps.IsWhitespace | src/main.rs:11 | the characters `read_line` leaves around a word (space, tab, LF, CR) are whitespace, and no ASCII letter is |
| StrOps.EqIgnoreAsciiCase | src/main.rs:31 | equal strings compare equal; strings that compare equal have the same length and whitespace at the same positions |
| StrOps.SkipWhitespace | src/main.rs:11 | the forward scan of `trim` stops at the first non-whitespace position and passes only whitespace |
| StrOps.SkipWhitespaceBack | src/main.rs:11 | the backward scan of `trim` stops after the last non-whitespace position and passes only whitespace |
| StrOps.Trim | src/main.rs:11 | the trimmed line has no whitespace at either end and is no longer than the input |
| StrOps.TrimSplits | src/main.rs:11 | the input is the trimmed result with a run of whitespace before it and another after it |
| StrOps.TrimUnique | src/main.rs:11 | any trimmed string between two runs of whitespace is exactly what `trim` returns |
| StrOps.TrimTrimmed | src/main.rs:31 | a line that is already trimmed is left unchanged |
| StrOps.TrimPadded | src/main.rs:11 | whitespace added on either side does not change the trimmed result |
| StrOps.TrimCaseFold | src/main.rs:11 | trimming two strings equal up to ASCII case gives results that are still equal up to ASCII case |
| StrOps.AsciiLower | src/main.rs:11 | each of A-Z becomes the letter at the same place in a-z, every other character is unchanged, and whitespace stays whitespace |
| StrOps.ToLower | src/main.rs:11 | lower-casing keeps the length, folds each character on its own, and leaves no upper-case ASCII letter |
| StrOps.ToLowerCaseFold | src/main.rs:11 | two strings lower-case to the same key if and only if they are equal ignoring ASCII case |
| Boilrs.Normalize | src/main.rs:11 | the key has no whitespace at either end, has no upper-case ASCII letter, and is no longer than the line |
| Boilrs.NormalizeIdempotent | src/main.rs:11 | normalising a normalised key returns it unchanged |
| Boilrs.NormalizedIsFixed | src/main.rs:11 | normalisation leaves a string unchanged if and only if it is already trimmed and lower-case |
| Boilrs.NormalizePaddedName | src/main.rs:11 | a name surrounded by whitespace normalises to the lower-cased name |
| Boilrs.NormalizeIgnoresPadding | src/main.rs:11 | whitespace around the language name never changes the key |
| Boilrs.NormalizeIgnoresCase | src/main.rs:11 | two lines equal up to ASCII case give the same key |
| Boilrs.SelectIff | src/main.rs:11-16 | a line selects a language if and only if, trimmed, it equals that language's key ignoring ASCII case |
| Boilrs.PaddedMixedCaseExample | src/main.rs:11 | `" Rust \n"` and `"rust"` both normalise to `"rust"` |
| Boilrs.Language.Key | src/main.rs:13-16 | every key the dispatch accepts is non-empty and already normalised, so typing it selects its language |
| Boilrs.Language.Template | src/main.rs:13-16 | each language's body, as dispatch returns it, contains `Hello, world!` |
| Boilrs.Language.Extension | src/main.rs:55-60 | every real extension is non-empty, has no dot, and is not the `txt` fallback |
| Boilrs.RustBoilerplate | src/main.rs:36-41 | the Rust template is a fixed body that contains `Hello, world!` |
| Boilrs.PythonBoilerplate | src/main.rs:43-47 | the Python template is a fixed body that contains `Hello, world!` |
| Boilrs.JavaScriptBoilerplate | src/main.rs:49-52 | the JavaScript template is a fixed body that contains `Hello, world!` |
| Boilrs.Dispatch | src/main.rs:13-23 | dispatch gives a body for exactly the keys `rust`, `python` and `javascript`, each with its own template; every other key, the empty one included, takes the "Unsupported language" arm |
| Boilrs.ExtensionFor | src/main.rs:55-61 | the extension is `rs`, `py` or `js` for those three keys and `txt` for every other key |
| Boilrs.SaveToFile | src/main.rs:54-66 | the file gets the content unchanged; the name is `boilerplate.` plus the key's extension (`boilerplate.txt` for unknown keys) and has no directory part |
| Boilrs.Run | src/main.rs:4-34 | a run is Unsupported exactly when the key is not in the table; otherwise it shows that language's body and saves it to `boilerplate.<its extension>` exactly when the second line confirms |
| Boilrs.TablesAgree | src/main.rs:13-16 | a key gets a body from dispatch if and only if the extension table at lines 55-60 gives it a real extension rather than `txt` |
| Boilrs.LanguagesDistinct | src/main.rs:55-60 | different languages have different keys, bodies, extensions and file names |
| Boilrs.FileNameOnlyByExtension | src/main.rs:55 | two saves use the same file name if and only if their keys map to the same extension |
| Boilrs.Confirmed | src/main.rs:31 | only an answer that trims to three characters confirms, and the plain word "yes" does (ConfirmedSpellings gives the full character-level condition) |
| Boilrs.ConfirmedSpellings | src/main.rs:31 | the answer confirms if and only if, once trimmed, it is three characters that spell "yes" in any mix of ASCII case |
| Boilrs.RefusedAnswers | src/main.rs:31 | `"y"`, `"no"`, a bare newline and the empty line do not confirm |
| Boilrs.PaddedYesAccepted | src/main.rs:31 | "yes" in any ASCII case, with any whitespace around it, confirms |
| Boilrs.YesLineConfirms | src/main.rs:31 | the line `"yes\n"` confirms |
| Boilrs.KeyLineSelects | src/main.rs:11 | a language's key followed by a newline normalises to that key |
| Boilrs.UnsupportedIgnoresAnswer | src/main.rs:18-20 | once the language is unsupported, no second line changes the outcome, so nothing is ever written |
| Boilrs.BlankLineUnsupported | src/main.rs:9-20 | an empty or all-whitespace first line is an unsupported language |
| Boilrs.SavedUsesRealExtension | src/main.rs:31-33 | a run that saves never writes to `boilerplate.txt`: the fallback extension cannot be reached from `main` |
| Boilrs.BodyMentionsGreeting | src/main.rs:25 | every body that is shown or saved contains `Hello, world!` |
| Boilrs.EveryLanguageReachable | src/main.rs:13-33 | typing a language's key and then "yes" saves that language's body to `boilerplate.<its extension>` |
| Boilrs.PythonSavedExample | src/main.rs:4-34 | "python" then "yes" writes the Python body to `boilerplate.py` |
| Boilrs.CobolUnsupportedExample | src/main.rs:13-21 | "COBOL" ends the run as unsupported whatever the second line is |
| Boilrs.ShortAnswerNotSavedExample | src/main.rs:31-33 | "rust" then "y" shows the Rust body and writes nothing |

## Left out

- Reading standard input and the `.unwrap()` panics when a read fails
  (`src/main.rs:10`, `src/main.rs:29`): the two lines `read_line` returns are
  parameters of `Run`. At end of input the buffer stays empty, which is the
  `BlankLineUnsupported` case.
- The banner, the prompts, the printed template and the status messages
  (`src/main.rs:5-7`, `19`, `25-26`, `65`): these are presentation only. The
  `Outcome` records which branch was taken.
- `fs::write` and its `.expect` panic when the write fails
  (`src/main.rs:64`): the model returns the `FileWrite` that `main` asks for.
  It does not model the file system, a failed write, or overwriting an
  existing file.
- StrOps.ToLower: only ASCII letters are folded. Rust's `to_lowercase` also
  folds other Unicode letters, and that library behaviour is not part of this
  model. This does not change any `Outcome`, because every supported key is
  pure ASCII. In Unicode's case mappings, only two non-ASCII characters
  lower-case to something containing an ASCII letter. KELVIN SIGN (U+212A)
  becomes `k`, and no key contains `k`. U+0130 becomes `i` followed by
  U+0307, which still leaves a non-ASCII character in the key. This argument
  is not proved in the model.
- StrOps.AsciiLower: this states only what `char::to_ascii_lowercase` does.
  Non-ASCII characters are left unchanged, as the Rust function leaves them.
- StrOps.IsWhitespace: this is the Unicode White_Space set that Rust's
  `char::is_whitespace` uses. The table is written out, not taken from the
  library.
- StrOps.EqIgnoreAsciiCase: Rust compares UTF-8 bytes, and the model compares
  characters. The only comparison in the program is with the ASCII word
  "yes", where the two agree. No byte of a multi-byte character folds to an
  ASCII letter.
- Not modelled because `main.rs` does not have them: accepting "y", a
  directory prompt and its checks, languages other than the three, and
  re-prompting.
