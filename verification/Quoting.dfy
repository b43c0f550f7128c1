/** Quoting: the remote shell word that a POSIX shell reads back, and the preview that can be decoded. */
module Quoting {
  import opened Common

  function Mapped(text: string, f: char -> string): string {
    if text == "" then "" else f(text[0]) + Mapped(text[1..], f)
  }

  lemma {:induction false} MappedPush(text: string, c: char, f: char -> string)
    ensures Mapped(text + [c], f) == Mapped(text, f) + f(c)
  {
    if text == "" {
      assert [c][1..] == "" && text + [c] == [c];
      assert Mapped([c], f) == f(c) + "";
    } else {
      MappedPush(text[1..], c, f);
      assert (text + [c])[1..] == text[1..] + [c];
    }
  }

  lemma MappedSplit(text: string, f: char -> string, end: string)
    requires text != ""
    ensures Mapped(text, f) + end == f(text[0]) + (Mapped(text[1..], f) + end)
  {
  }

  // ----- The remote shell word -----

  function EncodedChar(c: char): string {
    if c == '\'' then "'\\''" else [c]
  }

  function EncodedWord(text: string): string {
    "'" + Mapped(text, EncodedChar) + "'"
  }

  /** `encode_remote_shell_word`. */
  method EncodeRemoteShellWord(text: string) returns (encoded: string)
    ensures encoded == EncodedWord(text)
  {
    encoded := "'";
    for i := 0 to |text|
      invariant encoded == "'" + Mapped(text[..i], EncodedChar)
    {
      assert text[..i + 1] == text[..i] + [text[i]];
      MappedPush(text[..i], text[i], EncodedChar);
      if text[i] == '\'' {
        encoded := encoded + "'\\''";
      } else {
        encoded := encoded + [text[i]];
      }
    }
    assert text[..|text|] == text;
    encoded := encoded + "'";
  }

  // ----- A POSIX tokeniser -----

  predicate Blank(c: char) {
    c == ' ' || c == '\t'
  }

  /** Characters that mean something to the shell outside quotes (section 2.2 of the Shell Command Language), besides
      the backslash and the single quote. */
  predicate Special(c: char) {
    c in "|&;<>()$`\"\n*?[#~=%"
  }

  function WordSoFar(word: Option<string>): string {
    if word.Some? then word.value else ""
  }

  function Prepend<T>(first: T, rest: Option<seq<T>>): Option<seq<T>> {
    if rest.Some? then Some([first] + rest.value) else None
  }

  /** The words of a command line made of plain characters, backslash escapes (2.2.1) and single quotes (2.2.2); None
      where a quote or an escape is not finished or another special character is met unquoted. */
  function Words(text: string, word: Option<string>, quoted: bool): Option<seq<string>>
    decreases |text|
  {
    if text == "" then
      if quoted then None else if word.Some? then Some([word.value]) else Some([])
    else
      var c, rest := text[0], text[1..];
      if quoted then
        if c == '\'' then Words(rest, word, false) else Words(rest, Some(WordSoFar(word) + [c]), true)
      else if Blank(c) then
        if word.Some? then Prepend(word.value, Words(rest, None, false)) else Words(rest, None, false)
      else if c == '\'' then Words(rest, Some(WordSoFar(word)), true)
      else if c == '\\' then
        if rest == "" then None
        else if rest[0] == '\n' then Words(rest[1..], word, false)
        else Words(rest[1..], Some(WordSoFar(word) + [rest[0]]), false)
      else if Special(c) then None
      else Words(rest, Some(WordSoFar(word) + [c]), false)
  }

  /** Inside single quotes everything but a quote stands for itself. */
  lemma {:induction false} QuotedIsLiteral(text: string, rest: string, word: string)
    requires '\'' !in text
    ensures Words(text + rest, Some(word), true) == Words(rest, Some(word + text), true)
  {
    if text == "" {
      assert text + rest == rest && word + text == word;
    } else {
      assert (text + rest)[1..] == text[1..] + rest && (text + rest)[0] == text[0];
      QuotedIsLiteral(text[1..], rest, word + [text[0]]);
      assert word + [text[0]] + text[1..] == word + text;
    }
  }

  /** A quote inside the word closes, escapes itself and opens again. */
  lemma EscapedQuoteIsRead(rest: string, word: string)
    ensures Words("'\\''" + rest, Some(word), true) == Words(rest, Some(word + "'"), true)
  {
    var text := "'\\''" + rest;
    assert text[1..][0] == '\\' && text[1..][1..] == text[2..];
    assert text[2..][0] == '\'' && text[2..][1..] == text[3..];
    assert text[3..][0] == '\'' && text[3..][1..] == rest;
    assert Words(text, Some(word), true) == Words(text[1..], Some(word), false);
    assert Words(text[1..], Some(word), false) == Words(text[3..], Some(word + "'"), false);
    assert Words(text[3..], Some(word + "'"), false) == Words(rest, Some(word + "'"), true);
  }

  lemma {:induction false} BodyIsRead(text: string, rest: string, word: string)
    ensures Words(Mapped(text, EncodedChar) + rest, Some(word), true) == Words(rest, Some(word + text), true)
    decreases |text|
  {
    if text == "" {
      assert Mapped(text, EncodedChar) + rest == rest && word + text == word;
    } else {
      var c, tail := text[0], Mapped(text[1..], EncodedChar) + rest;
      MappedSplit(text, EncodedChar, rest);
      if c == '\'' {
        EscapedQuoteIsRead(tail, word);
      } else {
        QuotedIsLiteral([c], tail, word);
      }
      BodyIsRead(text[1..], rest, word + [c]);
      assert word + [c] + text[1..] == word + text;
    }
  }

  lemma WordIsRead(text: string, rest: string)
    ensures Words(EncodedWord(text) + rest, None, false) == Words(rest, Some(text), false)
  {
    var body := Mapped(text, EncodedChar);
    assert EncodedWord(text) + rest == "'" + (body + ("'" + rest));
    assert ("'" + (body + ("'" + rest)))[1..] == body + ("'" + rest);
    BodyIsRead(text, "'" + rest, "");
    assert "" + text == text;
    assert ("'" + rest)[1..] == rest;
  }

  /** A POSIX shell reads the encoded text as that one word, whatever the text. */
  lemma EncodedWordIsOneWord(text: string)
    ensures Words(EncodedWord(text), None, false) == Some([text])
  {
    WordIsRead(text, "");
    assert EncodedWord(text) + "" == EncodedWord(text);
  }

  function Spaced(parts: seq<string>): string {
    if parts == [] then "" else if |parts| == 1 then parts[0] else parts[0] + " " + Spaced(parts[1..])
  }

  lemma SpacedPush(first: string, rest: seq<string>)
    ensures Spaced([first] + rest) == if rest == [] then first else first + (" " + Spaced(rest))
  {
    assert ([first] + rest)[1..] == rest;
  }

  function EncodedAll(words: seq<string>): seq<string> {
    if words == [] then [] else [EncodedWord(words[0])] + EncodedAll(words[1..])
  }

  lemma BlankSeparates(word: string, rest: string)
    ensures Words(" " + rest, Some(word), false) == Prepend(word, Words(rest, None, false))
  {
    assert (" " + rest)[1..] == rest && (" " + rest)[0] == ' ';
  }

  /** And a list of encoded texts as those words, in order. */
  lemma {:induction false} EncodedWordsAreRead(words: seq<string>)
    ensures Words(Spaced(EncodedAll(words)), None, false) == Some(words)
  {
    if words != [] {
      var first, more := words[0], EncodedAll(words[1..]);
      EncodedWordsAreRead(words[1..]);
      SpacedPush(EncodedWord(first), more);
      if |words| == 1 {
        assert words == [first] && words[1..] == [] && more == [];
        EncodedWordIsOneWord(first);
      } else {
        assert more != [] by { assert words[1..] != []; }
        WordIsRead(first, " " + Spaced(more));
        BlankSeparates(first, Spaced(more));
        assert Words(Spaced(EncodedAll(words)), None, false) == Prepend(first, Some(words[1..]));
      }
      assert [first] + words[1..] == words;
    }
  }

  // ----- The preview -----

  /** `char::is_control`. */
  predicate Control(c: char) {
    c as int < 0x20 || 0x7F <= c as int < 0xA0
  }

  function HexText(n: nat): string
    requires n < 256
  {
    if n < 16 then ["0123456789abcdef"[n]] else ["0123456789abcdef"[n / 16], "0123456789abcdef"[n % 16]]
  }

  function ShownChar(c: char): string {
    if c == '\\' then "\\\\"
    else if c == '\'' then "'\\''"
    else if c == '\n' then "\\n"
    else if c == '\r' then "\\r"
    else if c == '\t' then "\\t"
    else if Control(c) then "\\u{" + HexText(c as int) + "}"
    else [c]
  }

  function Quoted(text: string): string {
    "'" + Mapped(text, ShownChar) + "'"
  }

  /** One character of `shell_quote`. */
  method ShowCharacter(c: char) returns (shown: string)
    ensures shown == ShownChar(c)
  {
    match c
    case '\\' => shown := "\\\\";
    case '\'' => shown := "'\\''";
    case '\n' => shown := "\\n";
    case '\r' => shown := "\\r";
    case '\t' => shown := "\\t";
    case _ => shown := if Control(c) then "\\u{" + HexText(c as int) + "}" else [c];
  }

  /** `shell_quote`. */
  method ShellQuote(text: string) returns (quoted: string)
    ensures quoted == Quoted(text)
  {
    quoted := "'";
    for i := 0 to |text|
      invariant quoted == "'" + Mapped(text[..i], ShownChar)
    {
      assert text[..i + 1] == text[..i] + [text[i]];
      MappedPush(text[..i], text[i], ShownChar);
      var shown := ShowCharacter(text[i]);
      quoted := quoted + shown;
    }
    assert text[..|text|] == text;
    quoted := quoted + "'";
  }

  datatype Invocation = Invocation(secretNames: seq<string>, program: string, arguments: seq<string>)

  predicate Letter(c: char) {
    'a' <= c <= 'z' || 'A' <= c <= 'Z'
  }

  /** `is_valid_secret_binding_name`: only such names can be bound. */
  predicate ValidBindingName(name: string) {
    && name != "" && (name[0] == '_' || Letter(name[0]))
    && forall i :: 0 < i < |name| ==> name[i] == '_' || Letter(name[i]) || '0' <= name[i] <= '9'
  }

  predicate ValidInvocation(invocation: Invocation) {
    forall i :: 0 <= i < |invocation.secretNames| ==> ValidBindingName(invocation.secretNames[i])
  }

  function Bindings(names: seq<string>): seq<string> {
    if names == [] then [] else [names[0] + "=<redacted>"] + Bindings(names[1..])
  }

  function QuotedAll(words: seq<string>): seq<string> {
    if words == [] then [] else [Quoted(words[0])] + QuotedAll(words[1..])
  }

  /** `ProcessInvocation::preview`. */
  function Preview(invocation: Invocation): string {
    Spaced(Bindings(invocation.secretNames) + [Quoted(invocation.program)] + QuotedAll(invocation.arguments))
  }

  // ----- Decoding a preview -----

  function HexValue(c: char): Option<nat> {
    if '0' <= c <= '9' then Some(c as int - '0' as int)
    else if 'a' <= c <= 'f' then Some(c as int - 'a' as int + 10)
    else None
  }

  /** A control character written in hexadecimal, behind its `\u`. */
  function ShownHex(text: string): Option<(char, nat)> {
    if |text| < 5 || text[2] != '{' || HexValue(text[3]) == None then None
    else if text[4] == '}' then Some((HexValue(text[3]).value as char, 5))
    else if |text| < 6 || HexValue(text[4]) == None || text[5] != '}' then None
    else Some(((HexValue(text[3]).value * 16 + HexValue(text[4]).value) as char, 6))
  }

  /** The character a quoted text starts with, and how much of the text shows it. */
  function ShownFirst(text: string): (shown: Option<(char, nat)>)
    requires text != ""
    ensures shown.Some? ==> 1 <= shown.value.1 <= |text|
  {
    if text[0] == '\'' then
      if |text| >= 4 && text[1] == '\\' && text[2] == '\'' && text[3] == '\'' then Some(('\'', 4)) else None
    else if text[0] != '\\' then Some((text[0], 1))
    else if |text| < 2 then None
    else if text[1] == '\\' then Some(('\\', 2))
    else if text[1] == 'n' then Some(('\n', 2))
    else if text[1] == 'r' then Some(('\r', 2))
    else if text[1] == 't' then Some(('\t', 2))
    else if text[1] == 'u' then ShownHex(text)
    else None
  }

  /** The text quoted here and what follows its closing quote. */
  function Unquote(text: string): (read: Option<(string, string)>)
    ensures read.Some? ==> |read.value.1| < |text|
    decreases |text|
  {
    if text == "" then None
    else
      match ShownFirst(text)
      case Some((c, n)) =>
        (match Unquote(text[n..])
         case None => None
         case Some((more, rest)) => Some(([c] + more, rest)))
      case None => if text[0] == '\'' then Some(("", text[1..])) else None
  }

  lemma HexTextIsRead(n: nat)
    requires n < 256
    ensures
      var text := HexText(n);
      && 1 <= |text| <= 2 && HexValue(text[0]).Some?
      && (|text| == 1 ==> HexValue(text[0]).value == n)
      && (|text| == 2 ==> HexValue(text[1]).Some? && HexValue(text[0]).value * 16 + HexValue(text[1]).value == n)
  {
    forall d: nat | d < 16 ensures HexValue("0123456789abcdef"[d]) == Some(d) {
      HexDigitIsRead(d);
    }
  }

  lemma HexDigitIsRead(d: nat)
    requires d < 16
    ensures HexValue("0123456789abcdef"[d]) == Some(d)
  {
    if d < 8 {
      assert d == 0 || d == 1 || d == 2 || d == 3 || d == 4 || d == 5 || d == 6 || d == 7;
    } else {
      assert d == 8 || d == 9 || d == 10 || d == 11 || d == 12 || d == 13 || d == 14 || d == 15;
    }
  }

  lemma ShownControlIsRead(c: char, rest: string)
    requires Control(c)
    ensures ShownFirst("\\u{" + HexText(c as int) + "}" + rest) == Some((c, |HexText(c as int)| + 4))
  {
    var hex := HexText(c as int);
    var text := "\\u{" + hex + "}" + rest;
    HexTextIsRead(c as int);
    assert text[0] == '\\' && text[1] == 'u' && text[2] == '{' && text[3] == hex[0] && text[3 + |hex|] == '}';
    if |hex| == 2 {
      assert text[4] == hex[1];
    }
  }

  lemma ShownCharIsRead(c: char, rest: string)
    ensures ShownFirst(ShownChar(c) + rest) == Some((c, |ShownChar(c)|))
  {
    var shown := ShownChar(c);
    var text := shown + rest;
    assert text[0] == shown[0];
    if |shown| == 2 {
      assert text[1] == shown[1];
    } else if c == '\'' {
      assert text[1] == shown[1] && text[2] == shown[2] && text[3] == shown[3];
    } else if |shown| > 2 {
      ShownControlIsRead(c, rest);
    }
  }

  lemma ClosingQuoteIsRead(rest: string)
    requires rest == "" || rest[0] != '\\'
    ensures Unquote("'" + rest) == Some(("", rest))
  {
    var end := "'" + rest;
    assert end[0] == '\'' && end[1..] == rest && (|end| > 1 ==> end[1] == rest[0]);
  }

  lemma CharIsUnquoted(c: char, tail: string, text: string, rest: string)
    requires Unquote(tail) == Some((text, rest))
    ensures Unquote(ShownChar(c) + tail) == Some(([c] + text, rest))
  {
    ShownCharIsRead(c, tail);
    assert (ShownChar(c) + tail)[|ShownChar(c)|..] == tail;
  }

  lemma {:induction false} BodyIsUnquoted(text: string, rest: string)
    requires rest == "" || rest[0] != '\\'
    ensures Unquote(Mapped(text, ShownChar) + ("'" + rest)) == Some((text, rest))
    decreases |text|
  {
    var end := "'" + rest;
    if text == "" {
      ClosingQuoteIsRead(rest);
      assert Mapped(text, ShownChar) + end == end;
    } else {
      BodyIsUnquoted(text[1..], rest);
      CharIsUnquoted(text[0], Mapped(text[1..], ShownChar) + end, text[1..], rest);
      MappedSplit(text, ShownChar, end);
      assert [text[0]] + text[1..] == text;
    }
  }

  /** The quoted words of a preview. */
  function DecodeWords(text: string): Option<seq<string>>
    decreases |text|
  {
    if text == "" || text[0] != '\'' then None
    else
      match Unquote(text[1..])
      case None => None
      case Some((word, rest)) =>
        if rest == "" then Some([word])
        else if rest[0] == ' ' then Prepend(word, DecodeWords(rest[1..]))
        else None
  }

  function UpToEquals(text: string): nat {
    if text == "" || text[0] == '=' then 0 else 1 + UpToEquals(text[1..])
  }

  lemma {:induction false} NameEndsAtEquals(name: string, rest: string)
    requires '=' !in name && rest != "" && rest[0] == '='
    ensures UpToEquals(name + rest) == |name|
  {
    if name == "" {
      assert name + rest == rest;
    } else {
      assert (name + rest)[1..] == name[1..] + rest;
      NameEndsAtEquals(name[1..], rest);
    }
  }

  const REDACTED := "=<redacted> "

  /** A whole preview: bindings as long as they come, then the program and its arguments. */
  function DecodePreview(text: string): Option<Invocation>
    decreases |text|
  {
    if text == "" then None
    else if text[0] == '\'' then
      match DecodeWords(text)
      case None => None
      case Some(words) => if words == [] then None else Some(Invocation([], words[0], words[1..]))
    else
      var n := UpToEquals(text);
      if n > |text| || !(REDACTED <= text[n..]) then None
      else
        match DecodePreview(text[n + |REDACTED|..])
        case None => None
        case Some(invocation) => Some(invocation.(secretNames := [text[..n]] + invocation.secretNames))
  }

  lemma QuotedIsUnquoted(word: string, rest: string)
    requires rest == "" || rest[0] != '\\'
    ensures Quoted(word) + rest != "" && (Quoted(word) + rest)[0] == '\''
    ensures Unquote((Quoted(word) + rest)[1..]) == Some((word, rest))
  {
    assert (Quoted(word) + rest)[1..] == Mapped(word, ShownChar) + ("'" + rest);
    BodyIsUnquoted(word, rest);
  }

  lemma {:induction false} WordsAreDecoded(words: seq<string>)
    requires words != []
    ensures DecodeWords(Spaced(QuotedAll(words))) == Some(words)
  {
    var first, more := words[0], QuotedAll(words[1..]);
    SpacedPush(Quoted(first), more);
    assert [first] + words[1..] == words;
    if |words| == 1 {
      assert words == [first] && words[1..] == [] && more == [];
      QuotedIsUnquoted(first, "");
      assert Quoted(first) + "" == Quoted(first);
    } else {
      var rest := " " + Spaced(more);
      assert more != [] by { assert words[1..] != []; }
      WordsAreDecoded(words[1..]);
      QuotedIsUnquoted(first, rest);
      assert rest[1..] == Spaced(more);
    }
  }

  lemma BindingIsDecoded(name: string, rest: string, smaller: Invocation)
    requires ValidBindingName(name) && DecodePreview(rest) == Some(smaller)
    ensures DecodePreview(name + (REDACTED + rest)) == Some(smaller.(secretNames := [name] + smaller.secretNames))
  {
    var text := name + (REDACTED + rest);
    NameEndsAtEquals(name, REDACTED + rest);
    assert text[0] == name[0];
    assert text[|name|..] == REDACTED + rest && text[..|name|] == name;
    assert text[|name| + |REDACTED|..] == rest;
  }

  lemma NoBindingsIsDecoded(invocation: Invocation)
    requires invocation.secretNames == []
    ensures DecodePreview(Preview(invocation)) == Some(invocation)
  {
    var words := [invocation.program] + invocation.arguments;
    assert [Quoted(invocation.program)] + QuotedAll(invocation.arguments) == QuotedAll(words);
    assert [] + [Quoted(invocation.program)] + QuotedAll(invocation.arguments) == QuotedAll(words);
    WordsAreDecoded(words);
    assert Preview(invocation)[0] == '\'' by {
      assert QuotedAll(words)[0][0] == '\'';
    }
  }

  /** Decoding undoes the preview. */
  lemma {:induction false} PreviewIsDecoded(invocation: Invocation)
    requires ValidInvocation(invocation)
    ensures DecodePreview(Preview(invocation)) == Some(invocation)
    decreases |invocation.secretNames|
  {
    var names := invocation.secretNames;
    if names == [] {
      NoBindingsIsDecoded(invocation);
    } else {
      var smaller := invocation.(secretNames := names[1..]);
      assert forall i :: 0 <= i < |names| - 1 ==> names[1..][i] == names[i + 1];
      PreviewIsDecoded(smaller);
      BindingIsDecoded(names[0], Preview(smaller), smaller);
      BindingComesFirst(invocation);
      assert [names[0]] + names[1..] == names;
    }
  }

  lemma BindingComesFirst(invocation: Invocation)
    requires invocation.secretNames != []
    ensures Preview(invocation) ==
            invocation.secretNames[0] + (REDACTED + Preview(invocation.(secretNames := invocation.secretNames[1..])))
  {
    var names := invocation.secretNames;
    var tail := [Quoted(invocation.program)] + QuotedAll(invocation.arguments);
    var parts := Bindings(names) + [Quoted(invocation.program)] + QuotedAll(invocation.arguments);
    var fewer := Bindings(names[1..]) + [Quoted(invocation.program)] + QuotedAll(invocation.arguments);
    assert parts[1..] == fewer && |fewer| >= 1;
    assert parts[0] == names[0] + "=<redacted>";
    assert names[0] + "=<redacted>" + " " + Spaced(fewer) == names[0] + (REDACTED + Spaced(fewer));
  }

  /** Two invocations never share a preview. */
  lemma PreviewIsInjective(left: Invocation, right: Invocation)
    requires ValidInvocation(left) && ValidInvocation(right)
    ensures Preview(left) == Preview(right) <==> left == right
  {
    PreviewIsDecoded(left);
    PreviewIsDecoded(right);
  }

  // ----- A preview is not always a command line -----

  predicate Untouched(c: char) {
    c != '\\' && !Control(c)
  }

  lemma {:induction false} ShownIsLonger(text: string)
    ensures |Displayed(text)| >= |text|
    ensures |Displayed(text)| == |text| <==> forall i :: 0 <= i < |text| ==> Untouched(text[i])
    ensures |Displayed(text)| == |text| ==> Displayed(text) == text
  {
    if text != "" {
      ShownIsLonger(text[1..]);
      assert text == [text[0]] + text[1..];
      assert Untouched(text[0]) <==> |DisplayedChar(text[0])| == 1;
    }
  }

  /** What a shell makes of one shown character. */
  function DisplayedChar(c: char): string {
    if c == '\'' then "'" else ShownChar(c)
  }

  function Displayed(text: string): string {
    Mapped(text, DisplayedChar)
  }

  lemma ShownCharIsDisplayed(c: char, tail: string, word: string)
    ensures Words(ShownChar(c) + tail, Some(word), true) == Words(tail, Some(word + DisplayedChar(c)), true)
  {
    if c == '\'' {
      EscapedQuoteIsRead(tail, word);
    } else {
      QuotedIsLiteral(ShownChar(c), tail, word);
    }
  }

  lemma {:induction false} ShownIsRead(text: string, rest: string, word: string)
    ensures Words(Mapped(text, ShownChar) + rest, Some(word), true) == Words(rest, Some(word + Displayed(text)), true)
    decreases |text|
  {
    if text == "" {
      assert Mapped(text, ShownChar) + rest == rest && word + Displayed(text) == word;
    } else {
      var c := text[0];
      MappedSplit(text, ShownChar, rest);
      ShownCharIsDisplayed(c, Mapped(text[1..], ShownChar) + rest, word);
      ShownIsRead(text[1..], rest, word + DisplayedChar(c));
      assert word + DisplayedChar(c) + Displayed(text[1..]) == word + (DisplayedChar(c) + Displayed(text[1..]));
    }
  }

  /** A POSIX shell reads a quoted part of the preview as the original text exactly when the text has no backslash and
      no control character. */
  lemma QuotedIsShellWordExactly(text: string)
    ensures Words(Quoted(text), None, false) == Some([text]) <==> forall i :: 0 <= i < |text| ==> Untouched(text[i])
  {
    var body := Mapped(text, ShownChar);
    assert Quoted(text)[1..] == body + "'";
    ShownIsRead(text, "'", "");
    assert "" + Displayed(text) == Displayed(text);
    assert Words("'", Some(Displayed(text)), true) == Some([Displayed(text)]) by {
      assert "'"[1..] == "";
    }
    ShownIsLonger(text);
    assert Words(Quoted(text), None, false) == Some([Displayed(text)]);
    assert Some([Displayed(text)]) == Some([text]) <==> Displayed(text) == text by {
      assert [Displayed(text)][0] == Displayed(text) && [text][0] == text;
    }
  }
}
