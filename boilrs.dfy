/** The decision core of the boilerplate generator (src/main.rs): the language
    line is normalised, a `match` picks a template body or ends the run, and
    a confirmed save writes the body to `boilerplate.<ext>`, where a second,
    separately written `match` picks the extension. Reading lines, printing
    and the file system stay outside: a run is a function from the two input
    lines to its `Outcome`. */
module Boilrs {
  import opened StrOps

  datatype Option<T> = None | Some(value: T)

  /** The languages the generator offers, as ONE table: key, template body
      and extension side by side. The source keeps the same information in
      two `match` expressions; `Dispatch` and `ExtensionFor` are proved to
      agree with this table. */
  datatype Language = Rust | Python | JavaScript {

    /** The normalised key the user types; already in normal form, so every
        language can be reached. */
    function Key(): (k: string)
      ensures IsNormalized(k) && k != ""
    {
      match this
      case Rust => "rust"
      case Python => "python"
      case JavaScript => "javascript"
    }

    /** The language's template body: a program that prints the greeting. */
    function Template(): (body: string)
      ensures Mentions(body, HelloWorld)
    {
      match this
      case Rust => RustBoilerplate()
      case Python => PythonBoilerplate()
      case JavaScript => JavaScriptBoilerplate()
    }

    /** A real extension: non-empty, without the dot the file name adds, and
        never the fallback. */
    function Extension(): (ext: string)
      ensures ext != "" && '.' !in ext && ext != FallbackExtension
    {
      match this
      case Rust => "rs"
      case Python => "py"
      case JavaScript => "js"
    }
  }

  /** The extension `save_to_file` uses for a key it does not know. */
  const FallbackExtension := "txt"

  const HelloWorld := "Hello, world!"

  /** `text` occurs somewhere in `body`. */
  predicate Mentions(body: string, text: string) {
    exists i :: 0 <= i <= |body| && text <= body[i..]
  }

  /** What normalisation produces: trimmed, and no upper-case ASCII letter. */
  predicate IsNormalized(key: string) {
    IsTrimmed(key) && forall i :: 0 <= i < |key| ==> !IsAsciiUpper(key[i])
  }

  /** `lang.trim().to_lowercase()`: the key used for both lookups. */
  function Normalize(line: string): (key: string)
    ensures IsNormalized(key)
    ensures |key| <= |line|
  {
    var t := Trim(line);
    var key := ToLower(t);
    assert key != [] ==> key[0] == AsciiLower(t[0]) && key[|key| - 1] == AsciiLower(t[|t| - 1]);
    key
  }

  /** `rust_boilerplate`: a fixed, non-empty program that prints the greeting. */
  function RustBoilerplate(): (body: string)
    ensures Mentions(body, HelloWorld)
  {
    var b := "fn main() {\n    println!(\"Hello, world!\");\n}";
    assert HelloWorld <= b[26..];
    b
  }

  /** `python_boilerplate`: a fixed, non-empty program that prints the greeting. */
  function PythonBoilerplate(): (body: string)
    ensures Mentions(body, HelloWorld)
  {
    var b := "if __name__ == \"__main__\":\n    print(\"Hello, world!\")";
    assert HelloWorld <= b[38..];
    b
  }

  /** `javascript_boilerplate`: a fixed, non-empty program that logs the greeting. */
  function JavaScriptBoilerplate(): (body: string)
    ensures Mentions(body, HelloWorld)
  {
    var b := "console.log(\"Hello, world!\");";
    assert HelloWorld <= b[13..];
    b
  }

  /** The `match` in `main` that picks the template. `None` is the arm that
      reports an unsupported language and returns. It succeeds exactly for
      the keys of the language table, with that language's body. */
  function Dispatch(key: string): (body: Option<string>)
    ensures body.None? <==> forall l: Language :: key != l.Key()
    ensures forall l: Language :: key == l.Key() ==> body == Some(l.Template())
  {
    match key
    case "rust" => assert key == Rust.Key(); Some(RustBoilerplate())
    case "python" => assert key == Python.Key(); Some(PythonBoilerplate())
    case "javascript" => assert key == JavaScript.Key(); Some(JavaScriptBoilerplate())
    case _ => None
  }

  /** The `match` inside `save_to_file` that picks the extension: the
      language's own extension for a key of the table, the fallback for any
      other key. */
  function ExtensionFor(key: string): (ext: string)
    ensures forall l: Language :: key == l.Key() ==> ext == l.Extension()
    ensures (forall l: Language :: key != l.Key()) ==> ext == FallbackExtension
  {
    match key
    case "rust" => assert key == Rust.Key(); "rs"
    case "python" => assert key == Python.Key(); "py"
    case "javascript" => assert key == JavaScript.Key(); "js"
    case _ => "txt"
  }

  /** What `fs::write` is asked to do. The path has no directory part: the
      file goes to the current directory. */
  datatype FileWrite = FileWrite(path: string, content: string)

  /** `save_to_file`: the content is written unchanged to
      `boilerplate.<ext>`; the name depends on the key only through its
      extension. */
  function SaveToFile(lang: string, content: string): (w: FileWrite)
    ensures w.content == content
    ensures '/' !in w.path && "boilerplate." <= w.path
    ensures forall l: Language :: lang == l.Key() ==> w.path == "boilerplate." + l.Extension()
    ensures (forall l: Language :: lang != l.Key()) ==> w.path == "boilerplate." + FallbackExtension
  {
    var fileName := "boilerplate." + ExtensionFor(lang);
    FileWrite(fileName, content)
  }

  /** The test on the second line: `save.trim().eq_ignore_ascii_case("yes")`.
      Only a three-character answer confirms, and the plain word does. */
  function Confirmed(saveLine: string): (yes: bool)
    ensures yes ==> |Trim(saveLine)| == 3
    ensures Trim(saveLine) == "yes" ==> yes
  {
    EqIgnoreAsciiCase(Trim(saveLine), "yes")
  }

  /** How one run of the program ends. */
  datatype Outcome =
    | Unsupported                 // the language is not offered; nothing more is read
    | NotSaved(body: string)      // the body was shown and not saved
    | Saved(write: FileWrite)     // the body was shown and written

  /** `main`, with its two `read_line` results as parameters. An unsupported
      key ends the run whatever the second line says; otherwise the body of
      the key's language is shown, and it is written to that language's file
      exactly when the second line confirms. */
  function Run(langLine: string, saveLine: string): (r: Outcome)
    ensures r.Unsupported? <==> forall l: Language :: Normalize(langLine) != l.Key()
    ensures forall l: Language :: Normalize(langLine) == l.Key() ==>
      r == if Confirmed(saveLine)
           then Saved(FileWrite("boilerplate." + l.Extension(), l.Template()))
           else NotSaved(l.Template())
  {
    var lang := Normalize(langLine);
    match Dispatch(lang)
    case None => Unsupported
    case Some(boilerplate) =>
      if Confirmed(saveLine) then Saved(SaveToFile(lang, boilerplate)) else NotSaved(boilerplate)
  }

  // Normalisation

  /** Normalising twice is normalising once. */
  lemma NormalizeIdempotent(line: string)
    ensures Normalize(Normalize(line)) == Normalize(line)
  {
    NormalizedIsFixed(Normalize(line));
  }

  /** The fixed points of normalisation are exactly the normalised strings. */
  lemma NormalizedIsFixed(key: string)
    ensures Normalize(key) == key <==> IsNormalized(key)
  {
    if IsNormalized(key) {
      TrimTrimmed(key);
      assert ToLower(key) == key by {
        assert forall i :: 0 <= i < |key| ==> ToLower(key)[i] == AsciiLower(key[i]) == key[i];
      }
    }
  }

  /** A name between runs of whitespace normalises to the name with its
      ASCII letters lower-cased. */
  lemma NormalizePaddedName(p: string, name: string, q: string)
    requires AllWhitespace(p) && AllWhitespace(q) && IsTrimmed(name)
    ensures Normalize(p + name + q) == ToLower(name)
  {
    TrimUnique(p, name, q);
  }

  /** Whitespace around the language name does not matter. */
  lemma NormalizeIgnoresPadding(p: string, name: string, q: string)
    requires AllWhitespace(p) && AllWhitespace(q)
    ensures Normalize(p + name + q) == Normalize(name)
  {
    TrimPadded(p, name, q);
  }

  /** The ASCII case of the language name does not matter. */
  lemma NormalizeIgnoresCase(a: string, b: string)
    requires EqIgnoreAsciiCase(a, b)
    ensures Normalize(a) == Normalize(b)
  {
    TrimCaseFold(a, b);
    ToLowerCaseFold(Trim(a), Trim(b));
  }

  /** A line selects a language exactly when, trimmed, it spells that
      language's key in any mix of ASCII case. */
  lemma SelectIff(line: string, l: Language)
    ensures Normalize(line) == l.Key() <==> EqIgnoreAsciiCase(Trim(line), l.Key())
  {
    NormalizedIsFixed(l.Key());
    TrimTrimmed(l.Key());
    ToLowerCaseFold(Trim(line), l.Key());
  }

  /** `" Rust \n"` and `"rust"` select the same language. */
  lemma PaddedMixedCaseExample()
    ensures Normalize(" Rust \n") == Normalize("rust") == "rust"
  {
    var padded, plain := " Rust \n", "rust";
    var p, name, q := padded[..1], padded[1..5], padded[5..];
    assert padded == p + name + q;
    assert ToLower(name) == plain;
    NormalizePaddedName(p, name, q);
    NormalizedIsFixed(plain);
  }

  // The two tables

  /** The template table and the extension table have the same keys: a key
      gets a body exactly when it gets a real extension, never the fallback. */
  lemma TablesAgree(key: string)
    ensures Dispatch(key).Some? <==> ExtensionFor(key) != FallbackExtension
  {
    if Dispatch(key).Some? {
      var l: Language :| key == l.Key();
    }
  }

  /** Different languages have different keys, bodies, extensions and so
      file names. */
  lemma LanguagesDistinct(l: Language, m: Language)
    requires l != m
    ensures l.Key() != m.Key() && l.Template() != m.Template() && l.Extension() != m.Extension()
    ensures SaveToFile(l.Key(), l.Template()).path != SaveToFile(m.Key(), m.Template()).path
  {
    var a, b := l.Extension(), m.Extension();
    assert ("boilerplate." + a)[12..] == a && ("boilerplate." + b)[12..] == b;
  }

  /** The file name depends on the key only through the extension. */
  lemma FileNameOnlyByExtension(k1: string, k2: string, c1: string, c2: string)
    ensures SaveToFile(k1, c1).path == SaveToFile(k2, c2).path <==> ExtensionFor(k1) == ExtensionFor(k2)
  {
    var a, b := ExtensionFor(k1), ExtensionFor(k2);
    assert ("boilerplate." + a)[12..] == a && ("boilerplate." + b)[12..] == b;
  }

  // Save confirmation

  /** The answer is accepted exactly when, trimmed, it is three letters
      spelling "yes" in any mix of cases. */
  lemma ConfirmedSpellings(saveLine: string)
    ensures Confirmed(saveLine) <==>
      var t := Trim(saveLine);
      |t| == 3 && t[0] in "yY" && t[1] in "eE" && t[2] in "sS"
  {
    var t := Trim(saveLine);
    if |t| == 3 {
      assert AsciiLower(t[0]) == 'y' <==> t[0] in "yY";
      assert AsciiLower(t[1]) == 'e' <==> t[1] in "eE";
      assert AsciiLower(t[2]) == 's' <==> t[2] in "sS";
    }
  }

  /** "y", "no" and an empty line are all refusals. */
  lemma RefusedAnswers()
    ensures !Confirmed("y\n") && !Confirmed("no\n") && !Confirmed("\n") && !Confirmed("")
  {
    forall answer: string | answer in {"y\n", "no\n", "\n", ""}
      ensures !Confirmed(answer)
    {
      assert |Trim(answer)| <= |answer| <= 3;
      var u, v := TrimSplits(answer);
      assert |Trim(answer)| <= 2;
    }
  }

  /** "yes" in any case, with any whitespace around it, is accepted. */
  lemma PaddedYesAccepted(p: string, word: string, q: string)
    requires AllWhitespace(p) && AllWhitespace(q) && EqIgnoreAsciiCase(word, "yes")
    ensures Confirmed(p + word + q)
  {
    assert IsTrimmed(word) by {
      SameCaseFoldSameWhitespace(word[0], 'y');
      SameCaseFoldSameWhitespace(word[2], 's');
    }
    TrimUnique(p, word, q);
  }

  // Runs

  /** An unsupported language ends the run before the second line is
      looked at, so no answer leads to a write. */
  lemma UnsupportedIgnoresAnswer(langLine: string, s1: string, s2: string)
    requires Run(langLine, s1).Unsupported?
    ensures Run(langLine, s2) == Unsupported
  {
  }

  /** An empty or blank first line (end of input included, where
      `read_line` leaves the buffer empty) is an unsupported language. */
  lemma BlankLineUnsupported(langLine: string, saveLine: string)
    requires AllWhitespace(langLine)
    ensures Run(langLine, saveLine) == Unsupported
  {
    TrimUnique(langLine, [], []);
    assert langLine + [] + [] == langLine;
  }

  /** A write never uses the fallback extension. */
  lemma SavedUsesRealExtension(langLine: string, saveLine: string)
    ensures Run(langLine, saveLine).Saved? ==>
      Run(langLine, saveLine).write.path != "boilerplate." + FallbackExtension
  {
    if Run(langLine, saveLine).Saved? {
      var l: Language :| Normalize(langLine) == l.Key();
      var e := l.Extension();
      assert ("boilerplate." + e)[12..] == e;
    }
  }

  /** Every shown or saved body is one that prints the greeting. */
  lemma BodyMentionsGreeting(langLine: string, saveLine: string)
    ensures match Run(langLine, saveLine)
      case Unsupported => true
      case NotSaved(body) => Mentions(body, HelloWorld)
      case Saved(w) => Mentions(w.content, HelloWorld)
  {
    if !Run(langLine, saveLine).Unsupported? {
      var l: Language :| Normalize(langLine) == l.Key();
    }
  }

  /** A language's key on a line of its own selects that language. */
  lemma KeyLineSelects(l: Language)
    ensures Normalize(l.Key() + "\n") == l.Key()
  {
    var langLine := l.Key() + "\n";
    var nl := langLine[|l.Key()|..];
    assert langLine == [] + l.Key() + nl;
    NormalizeIgnoresPadding([], l.Key(), nl);
    NormalizedIsFixed(l.Key());
  }

  /** A plain "yes" line confirms. */
  lemma YesLineConfirms()
    ensures Confirmed("yes\n")
  {
    var saveLine := "yes\n";
    var word, nl := saveLine[..3], saveLine[3..];
    assert word == "yes";
    assert saveLine == [] + word + nl;
    PaddedYesAccepted([], word, nl);
  }

  /** Every language of the table is reachable by typing its key, and a
      "yes" saves its body under its own extension. */
  lemma EveryLanguageReachable(l: Language)
    ensures Run(l.Key() + "\n", "yes\n") == Saved(FileWrite("boilerplate." + l.Extension(), l.Template()))
  {
    KeyLineSelects(l);
    YesLineConfirms();
  }

  /** "python", then "yes": `boilerplate.py` receives the Python body. */
  lemma PythonSavedExample()
    ensures Run("python\n", "yes\n") == Saved(FileWrite("boilerplate.py", PythonBoilerplate()))
  {
    EveryLanguageReachable(Python);
    assert Python.Key() + "\n" == "python\n";
  }

  /** "COBOL" is not offered: the run ends without a save prompt. */
  lemma CobolUnsupportedExample(saveLine: string)
    ensures Run("COBOL\n", saveLine) == Unsupported
  {
    var langLine := "COBOL\n";
    var name, nl := langLine[..5], langLine[5..];
    assert langLine == [] + name + nl;
    NormalizePaddedName([], name, nl);
    // Five letters: no key has that length.
    assert |Normalize(langLine)| == 5;
  }

  /** "rust", then "y": only "yes" saves, so nothing is written. */
  lemma ShortAnswerNotSavedExample()
    ensures Run("rust\n", "y\n") == NotSaved(RustBoilerplate())
  {
    var langLine := "rust\n";
    var name, nl := langLine[..4], langLine[4..];
    assert langLine == [] + name + nl;
    assert name == Rust.Key();
    NormalizeIgnoresPadding([], name, nl);
    NormalizedIsFixed(name);
    RefusedAnswers();
  }
}
