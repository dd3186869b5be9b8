/** Windows command lines: quoting one argument (adapters/elevation.rs) and the documented rules by
    which the started program splits the line again. */
module CommandLine {
  import opened Common
  import opened Text

  /** The number of backslashes the text starts with. */
  function Backslashes(s: string): (n: nat)
    ensures n <= |s|
    ensures forall k :: 0 <= k < n ==> s[k] == '\\'
    ensures n < |s| ==> s[n] != '\\'
  {
    if s == "" || s[0] != '\\' then 0 else 1 + Backslashes(s[1..])
  }

  function Finished(arg: Option<string>): seq<string> {
    if arg.Some? then [arg.value] else []
  }

  /** Splits the rest of a command line. Outside quotes a space or tab ends an argument; 2n
      backslashes before a quote stand for n and the quote switches quoting; 2n + 1 stand for n and a
      literal quote; other backslashes are literal. A doubled quote inside quotes is read either way
      by different runtimes, which `doubling` leaves open. */
  function Split(s: string, quoted: bool, arg: Option<string>, doubling: bool): seq<string>
    decreases |s|
  {
    if s == "" then Finished(arg)
    else if !quoted && (s[0] == ' ' || s[0] == '\t') then Finished(arg) + Split(s[1..], false, None, doubling)
    else
      var text := if arg.Some? then arg.value else "";
      var n := Backslashes(s);
      if n < |s| && s[n] == '"' then
        var text := text + Repeat('\\', n / 2);
        if n % 2 == 1 then Split(s[n + 1..], quoted, Some(text + "\""), doubling)
        else if doubling && quoted && n + 1 < |s| && s[n + 1] == '"' then
          Split(s[n + 2..], true, Some(text + "\""), doubling)
        else Split(s[n + 1..], !quoted, Some(text), doubling)
      else if n > 0 then Split(s[n..], quoted, Some(text + Repeat('\\', n)), doubling)
      else Split(s[1..], quoted, Some(text + [s[0]]), doubling)
  }

  function SplitArguments(line: string, doubling: bool): seq<string> {
    Split(line, false, None, doubling)
  }

  /** A run of backslashes and the character after it, quoted: only before a quote are they doubled. */
  function QuotedRun(n: nat, c: char): string {
    if c == '"' then Repeat('\\', 2 * n + 1) + "\"" else Repeat('\\', n) + [c]
  }

  /** The quoted form without its outer quotes. */
  function QuoteBody(s: string): string
    decreases |s|
  {
    var n := Backslashes(s);
    if n == |s| then Repeat('\\', 2 * n) else QuotedRun(n, s[n]) + QuoteBody(s[n + 1..])
  }

  function Quote(s: string): string {
    "\"" + QuoteBody(s) + "\""
  }

  lemma {:induction false} BackslashesOf(n: nat, rest: string)
    requires rest == "" || rest[0] != '\\'
    ensures Backslashes(Repeat('\\', n) + rest) == n
    decreases n
  {
    if n > 0 {
      BackslashesOf(n - 1, rest);
      assert (Repeat('\\', n) + rest)[1..] == Repeat('\\', n - 1) + rest;
    } else {
      assert Repeat('\\', 0) + rest == rest;
    }
  }

  lemma RepeatExtends(n: nat)
    ensures Repeat('\\', n) + ['\\'] == Repeat('\\', n + 1)
  {
  }

  /** What a character that is not a backslash does to the run of backslashes before it. */
  lemma QuoteBodyStep(n: nat, c: char, rest: string)
    requires c != '\\'
    ensures QuoteBody(Repeat('\\', n) + ([c] + rest)) == QuotedRun(n, c) + QuoteBody(Repeat('\\', 0) + rest)
  {
    var s := Repeat('\\', n) + ([c] + rest);
    BackslashesOf(n, [c] + rest);
    assert s[n] == c && s[n + 1..] == rest;
    assert Repeat('\\', 0) + rest == rest;
  }

  lemma QuoteBodyEnd(n: nat)
    ensures QuoteBody(Repeat('\\', n) + "") == Repeat('\\', n) + Repeat('\\', n)
  {
    BackslashesOf(n, "");
  }

  /** After `i` characters: `base` is everything before the run of backslashes that a following quote
      would have to double, and the rest of the quoted form is still to come. */
  ghost predicate Quoting(value: string, i: nat, quoted: string, backslashes: nat, base: string) {
    && i <= |value|
    && quoted == base + Repeat('\\', backslashes)
    && "\"" + QuoteBody(value) == base + QuoteBody(Repeat('\\', backslashes) + value[i..])
  }

  lemma PushBackslash(value: string, i: nat, quoted: string, n: nat, base: string)
    requires Quoting(value, i, quoted, n, base) && i < |value| && value[i] == '\\'
    ensures Quoting(value, i + 1, quoted + ['\\'], n + 1, base)
  {
    RepeatExtends(n);
    assert Repeat('\\', n) + value[i..] == Repeat('\\', n + 1) + value[i + 1..];
  }

  lemma PushOther(value: string, i: nat, quoted: string, n: nat, base: string)
    requires Quoting(value, i, quoted, n, base) && i < |value| && value[i] != '\\' && value[i] != '"'
    ensures Quoting(value, i + 1, quoted + [value[i]], 0, quoted + [value[i]])
  {
    assert value[i..] == [value[i]] + value[i + 1..];
    QuoteBodyStep(n, value[i], value[i + 1..]);
    Regroup(base, Repeat('\\', n), [value[i]]);
    Regroup(base, QuotedRun(n, value[i]), QuoteBody(Repeat('\\', 0) + value[i + 1..]));
    NoRun(quoted + [value[i]]);
  }

  lemma NoRun(s: string)
    ensures s == s + Repeat('\\', 0)
  {
  }

  lemma PushQuote(value: string, i: nat, quoted: string, n: nat, base: string)
    requires Quoting(value, i, quoted, n, base) && i < |value| && value[i] == '"'
    ensures var next := quoted + Repeat('\\', n) + ['\\', '"']; Quoting(value, i + 1, next, 0, next)
  {
    var next := quoted + Repeat('\\', n) + ['\\', '"'];
    assert value[i..] == [value[i]] + value[i + 1..];
    QuoteBodyStep(n, value[i], value[i + 1..]);
    DoubledRun(base, n);
    Regroup(base, QuotedRun(n, value[i]), QuoteBody(Repeat('\\', 0) + value[i + 1..]));
    NoRun(next);
  }

  lemma DoubledRun(base: string, n: nat)
    ensures base + Repeat('\\', n) + Repeat('\\', n) + ['\\', '"'] == base + (Repeat('\\', 2 * n + 1) + "\"")
  {
  }

  lemma PushEnd(value: string, quoted: string, n: nat, base: string)
    requires Quoting(value, |value|, quoted, n, base)
    ensures quoted + Repeat('\\', n) + ['"'] == Quote(value)
  {
    assert value[|value|..] == "";
    QuoteBodyEnd(n);
    assert base + (Repeat('\\', n) + Repeat('\\', n)) == quoted + Repeat('\\', n);
  }

  /** Quotes one argument by pushing characters, as the source does. */
  method QuoteArgument(value: string) returns (quoted: string)
    ensures quoted == Quote(value)
  {
    quoted := "\"";
    var backslashes: nat := 0;
    ghost var base := "\"";
    var i := 0;
    assert Repeat('\\', 0) + value[0..] == value;
    while i < |value|
      invariant Quoting(value, i, quoted, backslashes, base)
    {
      if value[i] == '\\' {
        PushBackslash(value, i, quoted, backslashes, base);
        backslashes := backslashes + 1;
        quoted := quoted + ['\\'];
      } else if value[i] == '"' {
        PushQuote(value, i, quoted, backslashes, base);
        quoted := quoted + Repeat('\\', backslashes) + ['\\', '"'];
        base := quoted;
        backslashes := 0;
      } else {
        PushOther(value, i, quoted, backslashes, base);
        backslashes := 0;
        quoted := quoted + [value[i]];
        base := quoted;
      }
      i := i + 1;
    }
    PushEnd(value, quoted, backslashes, base);
    quoted := quoted + Repeat('\\', backslashes) + ['"'];
  }

  /** An even run of backslashes before the closing quote. */
  lemma ClosingRunReads(n: nat, tail: string, text: string, doubling: bool)
    requires tail == "" || tail[0] == ' '
    ensures Split(Repeat('\\', 2 * n) + ("\"" + tail), true, Some(text), doubling)
            == Split(tail, false, Some(text + Repeat('\\', n)), doubling)
  {
    var line := Repeat('\\', 2 * n) + ("\"" + tail);
    BackslashesOf(2 * n, "\"" + tail);
    assert line[2 * n] == '"';
    assert line[2 * n + 1..] == tail;
  }

  /** An odd run of backslashes before a quote is a literal quote. */
  lemma EscapedQuoteReads(n: nat, after: string, text: string, doubling: bool)
    ensures Split(Repeat('\\', 2 * n + 1) + ("\"" + after), true, Some(text), doubling)
            == Split(after, true, Some(text + Repeat('\\', n) + "\""), doubling)
  {
    var line := Repeat('\\', 2 * n + 1) + ("\"" + after);
    BackslashesOf(2 * n + 1, "\"" + after);
    assert line[2 * n + 1] == '"';
    assert line[2 * n + 2..] == after;
    assert (2 * n + 1) / 2 == n && (2 * n + 1) % 2 == 1;
  }

  /** Backslashes that no quote follows, and the character after them, are literal inside quotes. */
  lemma PlainCharReads(n: nat, c: char, after: string, text: string, doubling: bool)
    requires c != '\\' && c != '"'
    ensures Split(Repeat('\\', n) + [c] + after, true, Some(text), doubling)
            == Split(after, true, Some(text + Repeat('\\', n) + [c]), doubling)
  {
    var rest := [c] + after;
    var line := Repeat('\\', n) + [c] + after;
    assert line == Repeat('\\', n) + rest;
    BackslashesOf(n, rest);
    BackslashesOf(0, rest);
    assert Repeat('\\', 0) + rest == rest && rest[1..] == after;
    if n > 0 {
      assert line[n..] == rest;
    } else {
      assert line == rest && text + Repeat('\\', 0) == text;
    }
  }

  lemma QuotedRunReads(n: nat, c: char, after: string, text: string, doubling: bool)
    requires c != '\\'
    ensures Split(QuotedRun(n, c) + after, true, Some(text), doubling)
            == Split(after, true, Some(text + (Repeat('\\', n) + [c])), doubling)
  {
    Regroup(text, Repeat('\\', n), [c]);
    if c == '"' {
      Regroup(Repeat('\\', 2 * n + 1), "\"", after);
      EscapedQuoteReads(n, after, text, doubling);
    } else {
      PlainCharReads(n, c, after, text, doubling);
    }
  }

  lemma RunAndRest(s: string, n: nat, text: string)
    requires n < |s| && s[..n] == Repeat('\\', n)
    ensures text + (Repeat('\\', n) + [s[n]]) + s[n + 1..] == text + s
  {
    Regroup(text, Repeat('\\', n) + [s[n]], s[n + 1..]);
    assert s == s[..n] + [s[n]] + s[n + 1..];
  }

  lemma LeadingRun(s: string)
    ensures s[..Backslashes(s)] == Repeat('\\', Backslashes(s))
  {
  }

  /** Inside quotes, the quoted body and its closing quote read back as exactly the text. */
  lemma {:induction false} QuotedBodyReads(s: string, tail: string, text: string, doubling: bool)
    requires tail == "" || tail[0] == ' '
    ensures Split(QuoteBody(s) + ("\"" + tail), true, Some(text), doubling) == Split(tail, false, Some(text + s), doubling)
    decreases |s|
  {
    var n := Backslashes(s);
    LeadingRun(s);
    if n == |s| {
      assert s[..n] == s;
      ClosingRunReads(n, tail, text, doubling);
    } else {
      var closing := "\"" + tail;
      var more := text + (Repeat('\\', n) + [s[n]]);
      Regroup(QuotedRun(n, s[n]), QuoteBody(s[n + 1..]), closing);
      QuotedRunReads(n, s[n], QuoteBody(s[n + 1..]) + closing, text, doubling);
      QuotedBodyReads(s[n + 1..], tail, more, doubling);
      RunAndRest(s, n, text);
    }
  }

  lemma OpeningQuoteReads(inner: string, doubling: bool)
    ensures Split("\"" + inner, false, None, doubling) == Split(inner, true, Some(""), doubling)
  {
    var line := "\"" + inner;
    assert Backslashes(line) == 0;
    assert line[1..] == inner;
    assert "" + Repeat('\\', 0) == "";
  }

  /** A quoted argument is read whole and leaves what follows it untouched. */
  lemma QuotedArgumentReads(s: string, tail: string, doubling: bool)
    requires tail == "" || tail[0] == ' '
    ensures Split(Quote(s) + tail, false, None, doubling) == [s] + Split(tail, false, None, doubling)
  {
    var inner := QuoteBody(s) + ("\"" + tail);
    assert Quote(s) + tail == "\"" + inner;
    OpeningQuoteReads(inner, doubling);
    QuotedBodyReads(s, tail, "", doubling);
    assert "" + s == s;
    ArgumentEnds(s, tail, doubling);
  }

  /** A space or the end of the line finishes the argument. */
  lemma ArgumentEnds(text: string, tail: string, doubling: bool)
    requires tail == "" || tail[0] == ' '
    ensures Split(tail, false, Some(text), doubling) == [text] + Split(tail, false, None, doubling)
  {
  }

  /** The quoting round trip: whatever the text, splitting its quoted form gives that one argument. */
  lemma QuoteRoundTrip(s: string, doubling: bool)
    ensures SplitArguments(Quote(s), doubling) == [s]
  {
    QuotedArgumentReads(s, "", doubling);
    assert Quote(s) + "" == Quote(s);
  }

  /** A word that needs no quoting. */
  predicate IsPlain(w: string) {
    w != "" && forall k :: 0 <= k < |w| ==> w[k] != ' ' && w[k] != '\t' && w[k] != '"' && w[k] != '\\'
  }

  lemma {:induction false} PlainRestReads(w: string, tail: string, text: string, doubling: bool)
    requires forall k :: 0 <= k < |w| ==> w[k] != ' ' && w[k] != '\t' && w[k] != '"' && w[k] != '\\'
    requires tail == "" || tail[0] == ' '
    ensures Split(w + tail, false, Some(text), doubling) == Split(tail, false, Some(text + w), doubling)
    decreases |w|
  {
    if w == "" {
      assert w + tail == tail && text + w == text;
    } else {
      var line := w + tail;
      assert Backslashes(line) == 0;
      assert line[1..] == w[1..] + tail;
      PlainRestReads(w[1..], tail, text + [w[0]], doubling);
      assert text + [w[0]] + w[1..] == text + w;
    }
  }

  lemma PlainWordReads(w: string, tail: string, doubling: bool)
    requires IsPlain(w) && (tail == "" || tail[0] == ' ')
    ensures Split(w + tail, false, None, doubling) == [w] + Split(tail, false, None, doubling)
  {
    var line := w + tail;
    assert Backslashes(line) == 0;
    assert line[1..] == w[1..] + tail;
    PlainRestReads(w[1..], tail, "" + [w[0]], doubling);
    assert "" + [w[0]] + w[1..] == w;
  }

  // ---------------------------------------------------------------- whole lines

  /** One argument as it stands on a command line. */
  datatype Word = Plain(text: string) | Quoted(text: string)

  function Render(w: Word): string {
    if w.Plain? then w.text else Quote(w.text)
  }

  /** The arguments separated by single spaces. */
  function Line(words: seq<Word>): string {
    if words == [] then ""
    else if |words| == 1 then Render(words[0])
    else Render(words[0]) + " " + Line(words[1..])
  }

  function Texts(words: seq<Word>): (ts: seq<string>)
    ensures |ts| == |words| && forall k :: 0 <= k < |words| ==> ts[k] == words[k].text
  {
    seq(|words|, k requires 0 <= k < |words| => words[k].text)
  }

  lemma WordReads(w: Word, tail: string, doubling: bool)
    requires (w.Plain? ==> IsPlain(w.text)) && (tail == "" || tail[0] == ' ')
    ensures Split(Render(w) + tail, false, None, doubling) == [w.text] + Split(tail, false, None, doubling)
  {
    if w.Plain? {
      PlainWordReads(w.text, tail, doubling);
    } else {
      QuotedArgumentReads(w.text, tail, doubling);
    }
  }

  /** A line of plain words and quoted texts splits into exactly those texts. */
  lemma {:induction false} LineRoundTrip(words: seq<Word>, doubling: bool)
    requires forall w :: w in words && w.Plain? ==> IsPlain(w.text)
    ensures SplitArguments(Line(words), doubling) == Texts(words)
    decreases |words|
  {
    if |words| == 1 {
      WordReads(words[0], "", doubling);
      assert Render(words[0]) + "" == Render(words[0]);
    } else if |words| > 1 {
      FirstWordReads(words, doubling);
      LineRoundTrip(words[1..], doubling);
      assert Texts(words) == [words[0].text] + Texts(words[1..]);
    }
  }

  lemma FirstWordReads(words: seq<Word>, doubling: bool)
    requires |words| > 1 && (words[0].Plain? ==> IsPlain(words[0].text))
    ensures SplitArguments(Line(words), doubling) == [words[0].text] + SplitArguments(Line(words[1..]), doubling)
  {
    var rest := Line(words[1..]);
    Regroup(Render(words[0]), " ", rest);
    WordReads(words[0], " " + rest, doubling);
    assert (" " + rest)[1..] == rest;
    SpaceSkipped(rest, doubling);
  }

  lemma SpaceSkipped(rest: string, doubling: bool)
    ensures Split(" " + rest, false, None, doubling) == Split(rest, false, None, doubling)
  {
    assert (" " + rest)[1..] == rest;
  }
}
