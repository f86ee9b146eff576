/** Quoting of a remote command line, against a reader of shell words. */
module ShellQuote {
  import opened Base

  function ReplaceQuotes(value: string): string {
    if value == "" then ""
    else (if value[0] == '\'' then "'\"'\"'" else [value[0]]) + ReplaceQuotes(value[1..])
  }

  function Quote(value: string): string {
    if value == "" then "''" else "'" + ReplaceQuotes(value) + "'"
  }

  function Join(words: seq<string>): string {
    if words == [] then ""
    else if |words| == 1 then words[0]
    else words[0] + " " + Join(words[1..])
  }

  function QuoteAll(parts: seq<string>): seq<string> {
    seq(|parts|, i requires 0 <= i < |parts| => Quote(parts[i]))
  }

  method ShellJoin(parts: seq<string>) returns (command: string)
    ensures command == Join(QuoteAll(parts))
  {
    var quoted: seq<string> := [];
    for i := 0 to |parts|
      invariant quoted == QuoteAll(parts)[..i]
    {
      quoted := quoted + [Quote(parts[i])];
    }
    assert QuoteAll(parts)[..|parts|] == QuoteAll(parts);
    return Join(quoted);
  }

  // ----- shell words: sections 2.2.1 to 2.2.3 and 2.6.7 of POSIX.1-2017 XCU -----

  /** Between words or inside one, within single quotes, within double quotes. */
  datatype Mode = Plain(current: Option<string>) | Single(word: string) | Double(word: string)

  /** Characters with another meaning when not quoted; reading stops at them. */
  predicate IsSpecial(c: char) {
    c in "|&;<>()$`*?[#~=%\n" || c == 0 as char
  }

  function WordOf(word: Option<string>): string {
    if word.Some? then word.value else ""
  }

  /** The words of `s` with the quotes removed; nothing when a quote is left open or
      more than quoting would have to be interpreted. */
  function Read(s: string, mode: Mode): Option<seq<string>>
    decreases |s|
  {
    if s == "" then
      match mode
      case Plain(None) => Some([])
      case Plain(Some(word)) => Some([word])
      case _ => None
    else
      var c, rest := s[0], s[1..];
      match mode
      case Plain(word) =>
        if c == ' ' || c == '\t' then
          var words := Read(rest, Plain(None));
          if words.Some? && word.Some? then Some([word.value] + words.value) else words
        else if c == '\'' then Read(rest, Single(WordOf(word)))
        else if c == '"' then Read(rest, Double(WordOf(word)))
        else if c == '\\' then
          if rest == "" then None
          else if rest[0] == '\n' then Read(rest[1..], mode)
          else Read(rest[1..], Plain(Some(WordOf(word) + [rest[0]])))
        else if IsSpecial(c) then None
        else Read(rest, Plain(Some(WordOf(word) + [c])))
      case Single(word) =>
        if c == '\'' then Read(rest, Plain(Some(word))) else Read(rest, Single(word + [c]))
      case Double(word) =>
        if c == '"' then Read(rest, Plain(Some(word)))
        else if c == '$' || c == '`' then None
        else if c == '\\' && rest != "" && rest[0] in "$`\"\\" then Read(rest[1..], Double(word + [rest[0]]))
        else if c == '\\' && rest != "" && rest[0] == '\n' then Read(rest[1..], mode)
        else Read(rest, Double(word + [c]))
  }

  function Words(s: string): Option<seq<string>> {
    Read(s, Plain(None))
  }

  // ----- round trip -----

  lemma ReadSplitQuote(tail: string, word: string)
    ensures Read("'\"'\"'" + tail, Single(word)) == Read(tail, Single(word + "'"))
  {
    var s := "'\"'\"'" + tail;
    assert s[1..] == "\"'\"'" + tail;
    assert s[1..][1..] == "'\"'" + tail;
    assert s[1..][1..][1..] == "\"'" + tail;
    assert s[1..][1..][1..][1..] == "'" + tail;
    assert s[1..][1..][1..][1..][1..] == tail;
    assert Read(s, Single(word)) == Read(s[1..], Plain(Some(word)));
    assert Read(s[1..], Plain(Some(word))) == Read(s[1..][1..], Double(word));
    assert Read(s[1..][1..], Double(word)) == Read(s[1..][1..][1..], Double(word + ['\'']));
    assert Read(s[1..][1..][1..], Double(word + ['\''])) == Read(s[1..][1..][1..][1..], Plain(Some(word + ['\''])));
  }

  lemma ReadSingle(c: char, tail: string, word: string)
    ensures Read([c] + tail, Single(word))
         == if c == '\'' then Read(tail, Plain(Some(word))) else Read(tail, Single(word + [c]))
  {
    assert ([c] + tail)[1..] == tail;
  }

  lemma ReadOpen(tail: string)
    ensures Read("'" + tail, Plain(None)) == Read(tail, Single(""))
  {
    assert ("'" + tail)[1..] == tail;
  }

  lemma ReadEnd(word: string)
    ensures Read("", Plain(Some(word))) == Some([word]) && Words("") == Some([])
  {
  }

  lemma ReadBlank(tail: string, word: string)
    ensures Read(" " + tail, Plain(Some(word))) == if Words(tail).Some? then Some([word] + Words(tail).value) else None
  {
    assert (" " + tail)[1..] == tail;
  }

  /** Inside single quotes, the replaced value reads as the value. */
  lemma {:induction false} ReadReplaced(value: string, tail: string, word: string)
    ensures Read(ReplaceQuotes(value) + "'" + tail, Single(word)) == Read(tail, Plain(Some(word + value)))
    decreases |value|
  {
    hide Read;
    if value == "" {
      assert ReplaceQuotes(value) + "'" + tail == ['\''] + tail;
      ReadSingle('\'', tail, word);
      assert word + value == word;
    } else {
      var next := ReplaceQuotes(value[1..]) + "'" + tail;
      if value[0] == '\'' {
        assert ReplaceQuotes(value) + "'" + tail == "'\"'\"'" + next;
        ReadSplitQuote(next, word);
      } else {
        assert ReplaceQuotes(value) + "'" + tail == [value[0]] + next;
        ReadSingle(value[0], next, word);
      }
      ReadReplaced(value[1..], tail, word + [value[0]]);
      assert word + [value[0]] + value[1..] == word + value;
    }
  }

  lemma ReadQuoted(value: string, tail: string)
    ensures Read(Quote(value) + tail, Plain(None)) == Read(tail, Plain(Some(value)))
  {
    hide Read;
    assert ReplaceQuotes("") == "";
    assert Quote(value) + tail == "'" + (ReplaceQuotes(value) + "'" + tail);
    ReadOpen(ReplaceQuotes(value) + "'" + tail);
    ReadReplaced(value, tail, "");
    assert "" + value == value;
  }

  /** Round trip: the shell's words of the joined command are exactly the parts, empty
      ones and any run of quotes included; nothing else is interpreted on the way. */
  lemma {:induction false} WordsOfJoin(parts: seq<string>)
    ensures Words(Join(QuoteAll(parts))) == Some(parts)
    decreases |parts|
  {
    hide Read, Quote;
    ReadEnd("");
    if parts != [] {
      var first, quoted, others := parts[0], QuoteAll(parts), QuoteAll(parts[1..]);
      assert quoted == [Quote(first)] + others;
      if |parts| == 1 {
        assert Join(quoted) == Quote(first) + "";
        ReadQuoted(first, "");
        ReadEnd(first);
        assert parts == [first];
      } else {
        assert quoted[1..] == others;
        assert Join(quoted) == Quote(first) + (" " + Join(others));
        ReadQuoted(first, " " + Join(others));
        ReadBlank(Join(others), first);
        WordsOfJoin(parts[1..]);
        assert parts == [first] + parts[1..];
      }
    }
  }
}
