/**
 * Recognising a `!card <format> <card name>` chat message, splitting it into a format and a
 * query, and the two character filters the query goes through before it is sent to the card
 * database (index.js:30-41).
 */
module Command {
  import opened Wrappers
  import opened JsStrings

  datatype Command = Command(format: string, query: string)

  /** What the first regex of the handler keeps: `\w`, `\s`, `-`, `’`, `:`, `!`, `'` and `.`. */
  predicate IsQueryChar(c: char) {
    || IsWordChar(c) || IsWhitespace(c)
    || c == '-' || c == '\U{2019}' || c == ':' || c == '!' || c == '\'' || c == '.'
  }

  /** What the second regex keeps: anything but `"` and `:`. */
  predicate IsNotQuoteOrColon(c: char) {
    c != '"' && c != ':'
  }

  /** The characters that can reach the card database: those both regexes keep. */
  predicate IsLookupChar(c: char) {
    || IsWordChar(c) || IsWhitespace(c)
    || c == '-' || c == '\U{2019}' || c == '!' || c == '\'' || c == '.'
  }

  /** The query as the handler reports it: the arguments after the format with every
      character outside the query alphabet removed. */
  function CleanQuery(s: string): (r: string)
    ensures forall i :: 0 <= i < |r| ==> IsQueryChar(r[i])
    ensures forall c :: c in r <==> c in s && IsQueryChar(c)
  {
    KeepCharsMembers(s, IsQueryChar);
    KeepChars(s, IsQueryChar)
  }

  /** The query as it is sent: the cleaned query without `"` and `:`. */
  function SanitizeQuery(query: string): (r: string)
    ensures forall c :: c in r <==> c in query && IsNotQuoteOrColon(c)
  {
    KeepCharsMembers(query, IsNotQuoteOrColon);
    KeepChars(query, IsNotQuoteOrColon)
  }

  /** The `q` parameter of the card-search request. */
  function LookupQuery(query: string): string {
    "name:" + SanitizeQuery(query)
  }

  predicate StartsWith(s: string, prefix: string) {
    |prefix| <= |s| && s[..|prefix|] == prefix
  }

  /** Whether the message handler acts on a message at all: it must start with `!card` and
      must not come from a bot account. */
  predicate IsCardCommand(content: string, authorIsBot: bool) {
    StartsWith(content, "!card") && !authorIsBot
  }

  /** The argument text: everything from the seventh character on, trimmed. */
  function Arguments(content: string): string {
    Trim(Drop(content, 6))
  }

  /** The format is the first space-separated argument, lower-cased; the query is the rest,
      re-joined with single spaces and cleaned. Either one empty means the usage reply. */
  function ParseCommand(content: string): (r: Option<Command>)
    ensures r.Some? ==> r.value.format != [] && r.value.query != []
    ensures r.Some? ==> forall i :: 0 <= i < |r.value.query| ==> IsQueryChar(r.value.query[i])
  {
    var args := Split(Arguments(content), ' ');
    var format := ToLower(args[0]);
    var query := CleanQuery(Join(args[1..], " "));
    if format == [] || query == [] then None else Some(Command(format, query))
  }

  /** The format is the argument text up to its first space, lower-cased, and the query is
      everything after that space, cleaned; the format can never be empty here, so the usage
      reply comes exactly when nothing of the query survives cleaning. */
  lemma ParseCommandAtFirstSpace(content: string, i: nat)
    requires i < |Arguments(content)| && Arguments(content)[i] == ' '
    requires ' ' !in Arguments(content)[..i]
    ensures var t := Arguments(content);
            ParseCommand(content)
            == if CleanQuery(t[i + 1..]) == [] then None
               else Some(Command(ToLower(t[..i]), CleanQuery(t[i + 1..])))
  {
    var t := Arguments(content);
    SplitAtFirst(t, ' ', i);
    JoinSplit(t[i + 1..], ' ');
    var args := Split(t, ' ');
    assert args[0] == t[..i];
    assert args[1..] == Split(t[i + 1..], ' ');
    assert i > 0 by {
      assert !IsWhitespace(t[0]);
    }
    assert |ToLower(t[..i])| == i;
  }

  /** A command with a single argument (a format and no card name) gets the usage reply. */
  lemma ParseCommandWithoutSpace(content: string)
    requires ' ' !in Arguments(content)
    ensures ParseCommand(content) == None
  {
    SplitWithoutSeparator(Arguments(content), ' ');
  }

  /** A character passes both regexes exactly when it is in the lookup alphabet. */
  lemma LookupCharIsBoth(c: char)
    ensures IsLookupChar(c) == (IsQueryChar(c) && IsNotQuoteOrColon(c))
  {
    assert '"' !in WhitespaceChars && ':' !in WhitespaceChars;
  }

  /** Both sanitising steps together keep exactly the lookup alphabet, in order: no `"` and
      no `:` ever reach the card database. */
  lemma SanitizedAlphabet(s: string)
    ensures SanitizeQuery(CleanQuery(s)) == KeepChars(s, IsLookupChar)
    ensures forall i :: 0 <= i < |SanitizeQuery(CleanQuery(s))| ==> IsLookupChar(SanitizeQuery(CleanQuery(s))[i])
    ensures '"' !in SanitizeQuery(CleanQuery(s)) && ':' !in SanitizeQuery(CleanQuery(s))
  {
    forall c {
      LookupCharIsBoth(c);
    }
    KeepCharsTwice(s, IsQueryChar, IsNotQuoteOrColon, IsLookupChar);
  }

  /** Sanitising an already sanitised query changes nothing. */
  lemma SanitizeIdempotent(s: string)
    ensures var once := SanitizeQuery(CleanQuery(s));
            SanitizeQuery(CleanQuery(once)) == once
  {
    var once := SanitizeQuery(CleanQuery(s));
    SanitizedAlphabet(s);
    KeepCharsAllKept(once, IsQueryChar);
    KeepCharsAllKept(once, IsNotQuoteOrColon);
  }
}
