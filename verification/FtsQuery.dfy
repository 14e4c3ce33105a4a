/** Free text turned into an FTS5 query: quoted phrases are kept, the rest is cut
    into words, and everything is OR-joined. The result is read back with the
    query grammar of section 3 of the SQLite FTS5 documentation. */
module FtsQuery {
  import opened Wrappers
  import opened Sequences
  import opened Words

  const MAX_TERMS := 12
  const MIN_TERM_CHARS := 2
  const OR := " OR "

  /** Words that carry no retrieval signal. */
  const STOPWORDS: seq<string> := EARLY_STOPWORDS + LATE_STOPWORDS

  const EARLY_STOPWORDS: seq<string> :=
    ["a", "about", "after", "all", "also", "am", "an", "and", "any", "are", "as"] +
    ["at", "back", "be", "because", "been", "before", "being", "but", "by", "can", "could"] +
    ["did", "do", "does", "doing", "done", "for", "from", "had", "has", "have", "having"] +
    ["he", "her", "here", "him", "his", "how", "i", "if", "in", "into", "is"] +
    ["it", "its", "just", "let", "like", "may", "me", "might", "much", "must", "my"] +
    ["need", "no", "not", "now", "of", "off", "on", "once", "one", "only", "or"]

  const LATE_STOPWORDS: seq<string> :=
    ["our", "out", "over", "please", "put", "said", "same", "see", "shall", "she", "should"] +
    ["so", "some", "still", "such", "sure", "tell", "than", "that", "the", "their", "them"] +
    ["then", "there", "these", "they", "thing", "things", "this", "those", "through", "to", "too"] +
    ["under", "up", "us", "very", "want", "was", "way", "we", "were", "what", "when"] +
    ["where", "which", "while", "who", "whom", "why", "will", "with", "would", "yes", "you"] +
    ["your"]

  /** What the standard library says about characters. */
  datatype Unicode = Unicode(alphanumeric: char -> bool, whitespace: char -> bool, lowercase: string -> string)

  predicate WordChar(u: Unicode, c: char) {
    u.alphanumeric(c) || c == '_'
  }

  /** The characters of an FTS5 bareword. */
  predicate Bare(c: char) {
    c as int >= 128 || 'a' <= c <= 'z' || 'A' <= c <= 'Z' || '0' <= c <= '9' || c == '_' || c as int == 26
  }

  predicate LowerBare(c: char) {
    Bare(c) && !('A' <= c <= 'Z')
  }

  function IsWord(u: Unicode): char -> bool {
    c => WordChar(u, c)
  }

  function IsClean(u: Unicode): char -> bool {
    c => WordChar(u, c) || c == ' '
  }

  predicate NotQuote(c: char) {
    c != '"'
  }

  predicate All(p: char -> bool, s: string) {
    forall i | 0 <= i < |s| :: p(s[i])
  }

  /** Facts about Unicode the module relies on: no ASCII character but letters and
      digits is alphanumeric, spaces are not, and lower-casing a word leaves no
      ASCII capital and adds no ASCII punctuation, and nothing where there is nothing. */
  ghost predicate Sensible(u: Unicode) {
    && (forall c :: u.alphanumeric(c) ==> Bare(c) && !u.whitespace(c))
    && u.whitespace(' ') && !u.whitespace('_') && u.lowercase("") == ""
    && (forall s :: All(IsWord(u), s) ==> All(LowerBare, u.lowercase(s)))
  }

  // ---- Quoted phrases ----

  function Blank(u: Unicode, s: string): (blanked: string)
    ensures |blanked| == |s|
    ensures All(IsClean(u), blanked)
  {
    seq(|s|, i requires 0 <= i < |s| => if WordChar(u, s[i]) then s[i] else ' ')
  }

  /** Everything FTS5 would read as syntax removed, runs of blanks collapsed. */
  function SanitizePhrase(u: Unicode, phrase: string): string {
    Join(SplitWhitespace(Blank(u, phrase), u.whitespace), " ")
  }

  /** The next quote from `i` on, or the end of the text. */
  function ClosingQuote(s: string, i: nat): (end: nat)
    requires i <= |s|
    ensures i <= end <= |s| && (end < |s| ==> s[end] == '"')
    ensures forall k | i <= k < end :: s[k] != '"'
    decreases |s| - i
  {
    if i == |s| || s[i] == '"' then i else ClosingQuote(s, i + 1)
  }

  function Past(s: string, end: nat): nat {
    if end < |s| then end + 1 else |s|
  }

  /** What is left outside the quotes, and the phrases taken out. */
  datatype Cut = Cut(rest: string, phrases: seq<string>)

  function CutFrom(u: Unicode, input: string, i: nat): Cut
    requires i <= |input|
    decreases |input| - i
  {
    if i == |input| then Cut("", [])
    else if input[i] != '"' then
      var after := CutFrom(u, input, i + 1);
      Cut([input[i]] + after.rest, after.phrases)
    else
      var end := ClosingQuote(input, i + 1);
      Quoted(u, SanitizePhrase(u, input[i + 1..end]), CutFrom(u, input, Past(input, end)))
  }

  /** A quoted stretch of several words is a phrase; a single word goes back to
      the rest, behind a blank. */
  function Quoted(u: Unicode, cleaned: string, after: Cut): Cut {
    if |SplitWhitespace(cleaned, u.whitespace)| > 1 then Cut(after.rest, [cleaned] + after.phrases)
    else if cleaned != "" then Cut(" " + cleaned + after.rest, after.phrases)
    else after
  }

  // ---- Words ----

  function NotWord(u: Unicode): char -> bool {
    c => !WordChar(u, c)
  }

  /** Every eligible token, in order: long enough and no stopword. */
  function Candidates(u: Unicode, stopwords: seq<string>, pieces: seq<string>): seq<string>
    decreases |pieces|
  {
    if pieces == [] then []
    else Candidates(u, stopwords, pieces[..|pieces| - 1]) + Candidate(u, stopwords, pieces[|pieces| - 1])
  }

  function Candidate(u: Unicode, stopwords: seq<string>, piece: string): seq<string> {
    var token := u.lowercase(piece);
    if |token| < MIN_TERM_CHARS || token in stopwords then [] else [token]
  }

  /** First occurrences only, in order. */
  function Distinct(tokens: seq<string>): seq<string>
    decreases |tokens|
  {
    if tokens == [] then []
    else
      var front, last := tokens[..|tokens| - 1], tokens[|tokens| - 1];
      if last in front then Distinct(front) else Distinct(front) + [last]
  }

  function Room(phrases: nat): nat {
    if phrases < MAX_TERMS then MAX_TERMS - phrases else 0
  }

  function Take<T>(s: seq<T>, n: nat): seq<T> {
    if n < |s| then s[..n] else s
  }

  /** A term as chosen, before it is printed. */
  datatype Term = Phrase(text: string) | Word(text: string)

  /** The terms chosen for an input: all its phrases, then as many distinct
      eligible words as there is room for. */
  function Chosen(u: Unicode, stopwords: seq<string>, input: string): seq<Term> {
    PhraseTerms(CutFrom(u, input, 0).phrases) + WordTerms(ChosenWords(u, stopwords, input))
  }

  function ChosenWords(u: Unicode, stopwords: seq<string>, input: string): seq<string> {
    var cut := CutFrom(u, input, 0);
    Take(Distinct(Candidates(u, stopwords, Split(cut.rest, NotWord(u)))), Room(|cut.phrases|))
  }

  function PhraseTerms(texts: seq<string>): (terms: seq<Term>)
    ensures |terms| == |texts| && forall i | 0 <= i < |texts| :: terms[i] == Phrase(texts[i])
  {
    seq(|texts|, i requires 0 <= i < |texts| => Phrase(texts[i]))
  }

  function WordTerms(texts: seq<string>): (terms: seq<Term>)
    ensures |terms| == |texts| && forall i | 0 <= i < |texts| :: terms[i] == Word(texts[i])
  {
    seq(|texts|, i requires 0 <= i < |texts| => Word(texts[i]))
  }

  function Shown(t: Term): string {
    match t
    case Phrase(text) => "\"" + text + "\""
    case Word(text) => text
  }

  function ShownAll(terms: seq<Term>): (texts: seq<string>)
    ensures |texts| == |terms| && forall i | 0 <= i < |terms| :: texts[i] == Shown(terms[i])
  {
    seq(|terms|, i requires 0 <= i < |terms| => Shown(terms[i]))
  }

  // ---- The two loops ----

  method ExtractPhrases(u: Unicode, input: string) returns (rest: string, terms: seq<string>)
    ensures var cut := CutFrom(u, input, 0); rest == cut.rest && terms == ShownAll(PhraseTerms(cut.phrases))
  {
    rest, terms := "", [];
    var i := 0;
    ghost var todo := CutFrom(u, input, 0);
    ghost var whole, phrases := todo, [];
    while i < |input|
      invariant i <= |input| && todo == CutFrom(u, input, i)
      invariant whole == Cut(rest + todo.rest, phrases + todo.phrases)
      invariant terms == ShownAll(PhraseTerms(phrases))
    {
      var c := input[i];
      i := i + 1;
      if c != '"' {
        todo := CutFrom(u, input, i);
        Assoc(rest, [c], todo.rest);
        rest := rest + [c];
        continue;
      }
      var end := ClosingQuote(input, i);
      var phrase := input[i..end];
      var cleaned := SanitizePhrase(u, phrase);
      i := Past(input, end);
      todo := CutFrom(u, input, i);
      if |SplitWhitespace(cleaned, u.whitespace)| > 1 {
        Assoc(phrases, [cleaned], todo.phrases);
        ShownSnoc(phrases, cleaned);
        terms := terms + ["\"" + cleaned + "\""];
        phrases := phrases + [cleaned];
      } else if cleaned != "" {
        Assoc(rest, " " + cleaned, todo.rest);
        Assoc(rest, " ", cleaned);
        rest := rest + " ";
        rest := rest + cleaned;
      }
    }
  }

  lemma ShownSnoc(phrases: seq<string>, phrase: string)
    ensures ShownAll(PhraseTerms(phrases + [phrase])) == ShownAll(PhraseTerms(phrases)) + ["\"" + phrase + "\""]
  {
    assert Shown(Phrase(phrase)) == "\"" + phrase + "\"";
  }

  method SelectWords(u: Unicode, stopwords: seq<string>, rest: string, phrases: nat) returns (seen: seq<string>)
    ensures seen == Take(Distinct(Candidates(u, stopwords, Split(rest, NotWord(u)))), Room(phrases))
  {
    seen := [];
    var pieces := Split(rest, NotWord(u));
    ghost var tokens := [];
    for i := 0 to |pieces|
      invariant tokens == Candidates(u, stopwords, pieces[..i])
      invariant seen == Distinct(tokens) && |seen| <= Room(phrases)
    {
      if phrases + |seen| >= MAX_TERMS {
        PrefixOfDistinct(u, stopwords, pieces, i);
        return;
      }
      CandidatesStep(u, stopwords, pieces, i);
      var token := u.lowercase(pieces[i]);
      if |token| < MIN_TERM_CHARS || token in stopwords {
        assert tokens + [] == tokens;
        continue;
      }
      DistinctSnoc(tokens, token);
      DistinctHolds(tokens, token);
      tokens := tokens + [token];
      if token in seen {
        continue;
      }
      seen := seen + [token];
    }
    assert pieces[..|pieces|] == pieces;
  }

  lemma CandidatesStep(u: Unicode, stopwords: seq<string>, pieces: seq<string>, i: nat)
    requires i < |pieces|
    ensures Candidates(u, stopwords, pieces[..i + 1]) ==
            Candidates(u, stopwords, pieces[..i]) + Candidate(u, stopwords, pieces[i])
  {
    assert pieces[..i + 1][..i] == pieces[..i];
  }

  lemma DistinctSnoc(tokens: seq<string>, t: string)
    ensures Distinct(tokens + [t]) == if t in tokens then Distinct(tokens) else Distinct(tokens) + [t]
  {
    assert (tokens + [t])[..|tokens|] == tokens;
  }

  lemma {:induction false} DistinctHolds(tokens: seq<string>, t: string)
    ensures t in Distinct(tokens) <==> t in tokens
    decreases |tokens|
  {
    if tokens != [] {
      var front, last := tokens[..|tokens| - 1], tokens[|tokens| - 1];
      assert tokens == front + [last];
      DistinctHolds(front, t);
    }
  }

  lemma {:induction false} DistinctDiffer(tokens: seq<string>, i: nat, j: nat)
    requires i < j < |Distinct(tokens)|
    ensures Distinct(tokens)[i] != Distinct(tokens)[j]
    decreases |tokens|
  {
    if tokens != [] {
      var front, last := tokens[..|tokens| - 1], tokens[|tokens| - 1];
      if j < |Distinct(front)| {
        DistinctDiffer(front, i, j);
      } else {
        assert Distinct(tokens)[i] == Distinct(front)[i];
        DistinctHolds(front, Distinct(front)[i]);
      }
    }
  }

  lemma {:induction false} PrefixOfDistinct(u: Unicode, stopwords: seq<string>, pieces: seq<string>, i: nat)
    requires i <= |pieces|
    ensures Distinct(Candidates(u, stopwords, pieces[..i])) <= Distinct(Candidates(u, stopwords, pieces))
    decreases |pieces| - i
  {
    if i < |pieces| {
      PrefixOfDistinct(u, stopwords, pieces, i + 1);
      CandidatesStep(u, stopwords, pieces, i);
      DistinctGrows(Candidates(u, stopwords, pieces[..i]), Candidate(u, stopwords, pieces[i]));
    } else {
      assert pieces[..i] == pieces;
    }
  }

  lemma DistinctGrows(tokens: seq<string>, more: seq<string>)
    requires |more| <= 1
    ensures Distinct(tokens) <= Distinct(tokens + more)
  {
    if more == [] {
      assert tokens + more == tokens;
    } else {
      assert more == [more[0]];
      DistinctSnoc(tokens, more[0]);
    }
  }

  /** Build the query: None when nothing searchable survives. Otherwise it parses
      to the OR of exactly the chosen terms. */
  method Build(u: Unicode, input: string) returns (query: Option<string>)
    ensures var terms := Chosen(u, STOPWORDS, input);
      && query == (if terms == [] then None else Some(Join(ShownAll(terms), OR)))
      && (Sensible(u) && query.Some? ==> ParseQuery(query.value) == Some(OrOf(terms)))
  {
    var rest, terms := ExtractPhrases(u, input);
    var seen := SelectWords(u, STOPWORDS, rest, |terms|);
    ChosenShown(u, STOPWORDS, input, terms, seen);
    terms := terms + seen;
    query := if terms == [] then None else Some(Join(terms, OR));
    if Sensible(u) && query.Some? {
      QueryExact(u, STOPWORDS, input);
    }
  }

  lemma ChosenShown(u: Unicode, stopwords: seq<string>, input: string, phrases: seq<string>, words: seq<string>)
    requires phrases == ShownAll(PhraseTerms(CutFrom(u, input, 0).phrases))
    requires words == ChosenWords(u, stopwords, input)
    ensures ShownAll(Chosen(u, stopwords, input)) == phrases + words
  {
  }

  // ---- FTS5 query syntax, without parentheses ----

  datatype Token = Str(text: string) | Keyword(text: string) | Symbol(c: char)

  function BareRun(s: string): (n: nat)
    ensures n <= |s| && (s != "" && Bare(s[0]) ==> n > 0)
  {
    if s == "" || !Bare(s[0]) then 0 else 1 + BareRun(s[1..])
  }

  function WordToken(word: string): Token {
    if word == "AND" || word == "OR" || word == "NOT" then Keyword(word) else Str(word)
  }

  /** A string up to its closing quote, a doubled quote standing for one. */
  function ReadString(s: string): (r: Option<(string, string)>)
    ensures r.Some? ==> |r.value.1| < |s|
    decreases |s|
  {
    if s == "" then None
    else if s[0] == '"' && (|s| == 1 || s[1] != '"') then Some(("", s[1..]))
    else
      var skip := if s[0] == '"' then 2 else 1;
      match ReadString(s[skip..])
      case None => None
      case Some(r) => Some(([s[0]] + r.0, r.1))
  }

  function Lex(s: string): Option<seq<Token>>
    decreases |s|
  {
    if s == "" then Some([])
    else if s[0] == ' ' || s[0] == '\t' || s[0] == '\n' || s[0] == '\r' then Lex(s[1..])
    else if s[0] == '"' then
      match ReadString(s[1..])
      case None => None
      case Some(r) => Prepend(Str(r.0), Lex(r.1))
    else if Bare(s[0]) then Prepend(WordToken(s[..BareRun(s)]), Lex(s[BareRun(s)..]))
    else Prepend(Symbol(s[0]), Lex(s[1..]))
  }

  function Prepend(t: Token, rest: Option<seq<Token>>): Option<seq<Token>> {
    if rest.None? then None else Some([t] + rest.value)
  }

  /** Operators by falling precedence: juxtaposition, NOT, AND, OR. */
  type Adjacent = seq<string>
  type Difference = seq<Adjacent>
  type Conjunction = seq<Difference>
  type Disjunction = seq<Conjunction>

  function Each<T>(groups: seq<seq<Token>>, parse: seq<Token> -> Option<T>): (r: Option<seq<T>>)
    ensures r.Some? <==> forall g | g in groups :: parse(g).Some?
    ensures r.Some? ==> |r.value| == |groups| && forall i | 0 <= i < |groups| :: Some(r.value[i]) == parse(groups[i])
  {
    if groups == [] then Some([])
    else
      var head, tail := parse(groups[0]), Each(groups[1..], parse);
      assert groups == [groups[0]] + groups[1..];
      if head.None? || tail.None? then None else Some([head.value] + tail.value)
  }

  predicate IsNot(t: Token) {
    t == Keyword("NOT")
  }

  predicate IsAnd(t: Token) {
    t == Keyword("AND")
  }

  predicate IsOr(t: Token) {
    t == Keyword("OR")
  }

  function ParseAdjacent(tokens: seq<Token>): Option<Adjacent> {
    if tokens != [] && forall t | t in tokens :: t.Str? then
      Some(seq(|tokens|, i requires 0 <= i < |tokens| => tokens[i].text))
    else None
  }

  function ParseDifference(tokens: seq<Token>): Option<Difference> {
    Each(Split(tokens, IsNot), ParseAdjacent)
  }

  function ParseConjunction(tokens: seq<Token>): Option<Conjunction> {
    Each(Split(tokens, IsAnd), ParseDifference)
  }

  function ParseDisjunction(tokens: seq<Token>): Option<Disjunction> {
    Each(Split(tokens, IsOr), ParseConjunction)
  }

  /** None is a syntax error, or an operator outside this fragment. */
  function ParseQuery(s: string): Option<Disjunction> {
    if Lex(s).None? then None else ParseDisjunction(Lex(s).value)
  }

  // ---- Printed terms read back ----

  /** What the printer needs of a term: no quote in a phrase; a word of bareword
      characters, none an ASCII capital. */
  ghost predicate Printable(t: Term) {
    match t
    case Phrase(text) => All(NotQuote, text)
    case Word(text) => text != "" && All(LowerBare, text)
  }

  function TokensOf(terms: seq<Term>): seq<Token> {
    if terms == [] then []
    else if |terms| == 1 then [Str(terms[0].text)]
    else [Str(terms[0].text), Keyword("OR")] + TokensOf(terms[1..])
  }

  lemma {:induction false} StringReadBack(text: string, rest: string)
    requires All(NotQuote, text) && (rest == "" || rest[0] != '"')
    ensures ReadString(text + "\"" + rest) == Some((text, rest))
    decreases |text|
  {
    var s := text + "\"" + rest;
    if text == "" {
      assert s[1..] == rest;
    } else {
      assert s[1..] == text[1..] + "\"" + rest;
      StringReadBack(text[1..], rest);
      assert [text[0]] + text[1..] == text;
    }
  }

  lemma {:induction false} RunOf(word: string, rest: string)
    requires All(Bare, word) && (rest == "" || !Bare(rest[0]))
    ensures BareRun(word + rest) == |word|
    decreases |word|
  {
    if word == "" {
      assert word + rest == rest;
    } else {
      assert (word + rest)[1..] == word[1..] + rest;
      RunOf(word[1..], rest);
    }
  }

  lemma LexWord(word: string, rest: string)
    requires word != "" && All(Bare, word) && (rest == "" || !Bare(rest[0]))
    ensures Lex(word + rest) == Prepend(WordToken(word), Lex(rest))
  {
    var s := word + rest;
    RunOf(word, rest);
    assert s[..|word|] == word && s[|word|..] == rest && s[0] == word[0];
  }

  lemma LexSpace(rest: string)
    ensures Lex(" " + rest) == Lex(rest)
  {
    assert (" " + rest)[1..] == rest;
  }

  lemma LexQuoted(text: string, rest: string)
    requires All(NotQuote, text) && (rest == "" || rest[0] != '"')
    ensures Lex("\"" + text + "\"" + rest) == Prepend(Str(text), Lex(rest))
  {
    var s := "\"" + text + "\"" + rest;
    assert s[1..] == text + "\"" + rest;
    StringReadBack(text, rest);
  }

  lemma NoCapitalNoKeyword(word: string)
    requires word != "" && All(LowerBare, word)
    ensures WordToken(word) == Str(word)
  {
    assert LowerBare(word[0]);
  }

  lemma TermReadBack(t: Term, rest: string)
    requires Printable(t) && (rest == "" || rest[0] == ' ')
    ensures Lex(Shown(t) + rest) == Prepend(Str(t.text), Lex(rest))
  {
    match t
    case Phrase(text) =>
      LexQuoted(text, rest);
    case Word(text) =>
      LexWord(text, rest);
      NoCapitalNoKeyword(text);
  }

  lemma SpacedWord(word: string, rest: string)
    requires word != "" && All(Bare, word)
    ensures Lex(" " + word + " " + rest) == Prepend(WordToken(word), Lex(rest))
  {
    LexSpace(rest);
    LexWord(word, " " + rest);
    LexSpace(word + (" " + rest));
    Assoc(" " + word, " ", rest);
    Assoc(" ", word, " " + rest);
  }

  lemma OrReadBack(rest: string)
    ensures Lex(OR + rest) == Prepend(Keyword("OR"), Lex(rest))
  {
    SpacedWord("OR", rest);
    assert OR == " " + "OR" + " ";
  }

  lemma {:induction false} TermsReadBack(terms: seq<Term>)
    requires forall t | t in terms :: Printable(t)
    ensures Lex(Join(ShownAll(terms), OR)) == Some(TokensOf(terms))
    decreases |terms|
  {
    if terms == [] {
      assert ShownAll(terms) == [] && Join(ShownAll(terms), OR) == "";
      assert Lex("") == Some([]);
    } else {
      var head, rest := terms[0], terms[1..];
      assert ShownAll(terms)[1..] == ShownAll(rest);
      TermsReadBack(rest);
      if rest == [] {
        LastReadBack(head);
      } else {
        PairReadBack(head, Join(ShownAll(rest), OR), TokensOf(rest));
      }
    }
  }

  lemma LastReadBack(head: Term)
    requires Printable(head)
    ensures Lex(Shown(head)) == Some([Str(head.text)])
  {
    TermReadBack(head, "");
    assert Shown(head) + "" == Shown(head);
    assert [Str(head.text)] + [] == [Str(head.text)];
  }

  lemma PairReadBack(head: Term, tail: string, tokens: seq<Token>)
    requires Printable(head) && Lex(tail) == Some(tokens)
    ensures Lex(Shown(head) + OR + tail) == Some([Str(head.text), Keyword("OR")] + tokens)
  {
    OrReadBack(tail);
    TermReadBack(head, OR + tail);
    Assoc(Shown(head), OR, tail);
    var rest := Some([Keyword("OR")] + tokens);
    assert Lex(OR + tail) == rest;
    assert Prepend(Str(head.text), rest) == Some([Str(head.text)] + ([Keyword("OR")] + tokens));
    assert [Str(head.text), Keyword("OR")] == [Str(head.text)] + [Keyword("OR")];
    Assoc([Str(head.text)], [Keyword("OR")], tokens);
  }

  function Singles(terms: seq<Term>): seq<seq<Token>> {
    seq(|terms|, i requires 0 <= i < |terms| => [Str(terms[i].text)])
  }

  lemma {:induction false} OrGroups(terms: seq<Term>)
    requires terms != []
    ensures Split(TokensOf(terms), IsOr) == Singles(terms)
    decreases |terms|
  {
    var head := Str(terms[0].text);
    if |terms| == 1 {
      SplitOne(head, IsOr);
    } else {
      OrGroups(terms[1..]);
      SplitTwo(head, Keyword("OR"), TokensOf(terms[1..]), IsOr);
      assert Singles(terms) == [[head]] + Singles(terms[1..]);
    }
  }

  lemma EachOne<T>(group: seq<Token>, parse: seq<Token> -> Option<T>)
    requires parse(group).Some?
    ensures Each([group], parse) == Some([parse(group).value])
  {
    assert [group][1..] == [] && Each([group][1..], parse) == Some([]);
    assert [parse(group).value] + [] == [parse(group).value];
  }

  lemma OneTermParses(text: string)
    ensures ParseConjunction([Str(text)]) == Some([[[text]]])
  {
    var group := [Str(text)];
    SplitOne(Str(text), IsNot);
    SplitOne(Str(text), IsAnd);
    assert ParseAdjacent(group).value == [text];
    EachOne(group, ParseAdjacent);
    EachOne(group, ParseDifference);
  }

  /** The OR of the given terms and nothing else. */
  function OrOf(terms: seq<Term>): Disjunction {
    seq(|terms|, i requires 0 <= i < |terms| => [[[terms[i].text]]])
  }

  /** A printed list of terms parses to the OR of exactly those terms. */
  lemma PrintedParses(terms: seq<Term>)
    requires terms != [] && forall t | t in terms :: Printable(t)
    ensures ParseQuery(Join(ShownAll(terms), OR)) == Some(OrOf(terms))
  {
    TermsReadBack(terms);
    OrGroups(terms);
    SinglesParse(terms);
  }

  lemma SinglesParse(terms: seq<Term>)
    ensures Each(Singles(terms), ParseConjunction) == Some(OrOf(terms))
  {
    forall i | 0 <= i < |terms|
      ensures ParseConjunction(Singles(terms)[i]) == Some([[[terms[i].text]]])
    {
      OneTermParses(terms[i].text);
    }
    var r := Each(Singles(terms), ParseConjunction);
    assert r.value == OrOf(terms);
  }

  // ---- What becomes of a quoted stretch ----

  lemma {:induction false} BlankedWords(u: Unicode, s: string)
    requires Sensible(u)
    ensures Split(Blank(u, s), u.whitespace) == Split(s, NotWord(u))
    decreases |s|
  {
    if s != "" {
      BlankedWords(u, s[1..]);
      assert Blank(u, s)[1..] == Blank(u, s[1..]);
      assert WordChar(u, s[0]) ==> !u.whitespace(s[0]);
    }
  }

  lemma {:induction false} JoinEmpty(words: seq<string>)
    requires forall w | w in words :: w != ""
    ensures Join(words, " ") == "" <==> words == []
  {
    if words != [] {
      assert words[0] in words;
    }
  }

  /** Cleaning a quoted stretch leaves its words, a blank between each two. */
  lemma CleanedWords(u: Unicode, s: string)
    requires Sensible(u)
    ensures var words := SplitWhitespace(s, NotWord(u));
      && SanitizePhrase(u, s) == Join(words, " ")
      && SplitWhitespace(SanitizePhrase(u, s), u.whitespace) == words
      && (SanitizePhrase(u, s) == "" <==> words == [])
  {
    var words := SplitWhitespace(s, NotWord(u));
    BlankedWords(u, s);
    forall w | w in words
      ensures w != "" && Solid(w, u.whitespace)
    {
      SplitWordFree(s, NotWord(u), w);
      SplitWordFree(Blank(u, s), u.whitespace, w);
    }
    WordsOfJoin(words, u.whitespace);
    JoinEmpty(words);
  }

  /** A quoted stretch of several words is a phrase of these words; a single word goes
      back to the rest behind a blank, and nothing is left of a stretch without any. */
  lemma QuotedByWords(u: Unicode, s: string, after: Cut)
    requires Sensible(u)
    ensures var words := SplitWhitespace(s, NotWord(u));
      Quoted(u, SanitizePhrase(u, s), after) ==
        if |words| > 1 then Cut(after.rest, [Join(words, " ")] + after.phrases)
        else if |words| == 1 then Cut(" " + words[0] + after.rest, after.phrases)
        else after
  {
    CleanedWords(u, s);
  }

  // ---- Which words get in ----

  /** A maximal run of letters, digits and underscores. */
  predicate WordAt(u: Unicode, s: string, i: nat, j: nat) {
    && i < j <= |s| && (forall k | i <= k < j :: u.alphanumeric(s[k]) || s[k] == '_')
    && (i > 0 ==> !u.alphanumeric(s[i - 1]) && s[i - 1] != '_')
    && (j < |s| ==> !u.alphanumeric(s[j]) && s[j] != '_')
  }

  /** Long enough when lower-cased, and no stopword. */
  predicate Telling(u: Unicode, stopwords: seq<string>, word: string) {
    |u.lowercase(word)| >= 2 && u.lowercase(word) !in stopwords
  }

  /** `words` are the telling words of `rest`, lower-cased, each at the first place
      `at` where it stands, in order, until twelve terms are taken. */
  ghost predicate FirstWords(u: Unicode, stopwords: seq<string>, rest: string, phrases: nat,
                             words: seq<string>, at: seq<(nat, nat)>) {
    && |at| == |words|
    && (forall k | 0 <= k < |at| :: TellsAt(u, stopwords, rest, at[k].0, at[k].1, words[k]))
    && (forall k, l | 0 <= k < l < |at| :: at[k].0 < at[l].0 && words[k] != words[l])
    && (words != [] ==> phrases + |words| <= 12)
    && forall i: nat, j: nat, w | TellsAt(u, stopwords, rest, i, j, w) :: GetsIn(phrases, words, at, i, w)
  }

  /** A telling word stands here and reads so in lower case. */
  predicate TellsAt(u: Unicode, stopwords: seq<string>, rest: string, i: nat, j: nat, w: string) {
    WordAt(u, rest, i, j) && Telling(u, stopwords, rest[i..j]) && w == u.lowercase(rest[i..j])
  }

  /** The word is a term, found here or before; or there was no room left for it. */
  ghost predicate GetsIn(phrases: nat, words: seq<string>, at: seq<(nat, nat)>, i: nat, w: string)
    requires |at| == |words|
  {
    || (exists k | 0 <= k < |words| :: words[k] == w && at[k].0 <= i)
    || (phrases + |words| >= 12 && forall k | 0 <= k < |at| :: at[k].0 < i)
  }

  /** Numbers of pieces, in order, whose words these are. */
  ghost predicate InOrder(u: Unicode, stopwords: seq<string>, pieces: seq<string>, words: seq<string>, at: seq<nat>) {
    && |at| == |words|
    && (forall k | 0 <= k < |at| ::
          at[k] < |pieces| && Candidate(u, stopwords, pieces[at[k]]) == [words[k]])
    && (forall k, l | 0 <= k < l < |at| :: at[k] < at[l])
  }

  /** And every piece with a word has it here or before. */
  ghost predicate FirstPieces(u: Unicode, stopwords: seq<string>, pieces: seq<string>,
                              words: seq<string>, at: seq<nat>) {
    && InOrder(u, stopwords, pieces, words, at)
    && forall m | 0 <= m < |pieces| && Candidate(u, stopwords, pieces[m]) != [] ::
         exists k | 0 <= k < |words| :: [words[k]] == Candidate(u, stopwords, pieces[m]) && at[k] <= m
  }

  lemma PieceSkipped(u: Unicode, stopwords: seq<string>, front: seq<string>, piece: string,
                     words: seq<string>, at: seq<nat>)
    requires FirstPieces(u, stopwords, front, words, at)
    requires Candidate(u, stopwords, piece) == [] || Candidate(u, stopwords, piece)[0] in words
    ensures FirstPieces(u, stopwords, front + [piece], words, at)
  {
    var pieces := front + [piece];
    forall m | 0 <= m < |pieces| && Candidate(u, stopwords, pieces[m]) != []
      ensures exists k | 0 <= k < |words| :: [words[k]] == Candidate(u, stopwords, pieces[m]) && at[k] <= m
    {
      if m < |front| {
        assert pieces[m] == front[m];
      } else {
        var k :| 0 <= k < |words| && words[k] == Candidate(u, stopwords, piece)[0];
        assert [words[k]] == Candidate(u, stopwords, pieces[m]) && at[k] <= m;
      }
    }
  }

  lemma PieceAdded(u: Unicode, stopwords: seq<string>, front: seq<string>, piece: string,
                   words: seq<string>, at: seq<nat>, w: string)
    requires FirstPieces(u, stopwords, front, words, at) && Candidate(u, stopwords, piece) == [w]
    ensures FirstPieces(u, stopwords, front + [piece], words + [w], at + [|front|])
  {
    var pieces, ws, ats := front + [piece], words + [w], at + [|front|];
    OrderAdded(u, stopwords, front, piece, words, at, w);
    forall m | 0 <= m < |pieces| && Candidate(u, stopwords, pieces[m]) != []
      ensures exists k | 0 <= k < |ws| :: [ws[k]] == Candidate(u, stopwords, pieces[m]) && ats[k] <= m
    {
      if m < |front| {
        assert pieces[m] == front[m];
        var k :| 0 <= k < |words| && [words[k]] == Candidate(u, stopwords, front[m]) && at[k] <= m;
        assert ws[k] == words[k] && ats[k] == at[k];
      } else {
        assert ws[|words|] == w && ats[|words|] == m;
      }
    }
  }

  lemma OrderAdded(u: Unicode, stopwords: seq<string>, front: seq<string>, piece: string,
                   words: seq<string>, at: seq<nat>, w: string)
    requires InOrder(u, stopwords, front, words, at) && Candidate(u, stopwords, piece) == [w]
    ensures InOrder(u, stopwords, front + [piece], words + [w], at + [|front|])
  {
  }

  lemma {:induction false} DistinctAreFirst(u: Unicode, stopwords: seq<string>, pieces: seq<string>)
    returns (at: seq<nat>)
    ensures FirstPieces(u, stopwords, pieces, Distinct(Candidates(u, stopwords, pieces)), at)
    decreases |pieces|
  {
    at := [];
    if pieces != [] {
      var front, last := pieces[..|pieces| - 1], pieces[|pieces| - 1];
      var tokens, more := Candidates(u, stopwords, front), Candidate(u, stopwords, last);
      at := DistinctAreFirst(u, stopwords, front);
      assert pieces == front + [last];
      if more == [] {
        assert tokens + more == tokens;
        PieceSkipped(u, stopwords, front, last, Distinct(tokens), at);
      } else {
        var w := more[0];
        assert more == [w];
        DistinctSnoc(tokens, w);
        DistinctHolds(tokens, w);
        if w in tokens {
          PieceSkipped(u, stopwords, front, last, Distinct(tokens), at);
        } else {
          PieceAdded(u, stopwords, front, last, Distinct(tokens), at, w);
          at := at + [|front|];
        }
      }
    }
  }

  lemma WordIsStretch(u: Unicode, s: string, i: nat, j: nat)
    ensures WordAt(u, s, i, j) <==> i < j && Stretch(s, NotWord(u), i, j)
  {
  }

  /** From pieces by number to words by place. */
  lemma PieceTells(u: Unicode, stopwords: seq<string>, rest: string, pieces: seq<string>, m: nat, w: string)
    requires u.lowercase("") == "" && pieces == Split(rest, NotWord(u))
    requires m < |pieces| && Candidate(u, stopwords, pieces[m]) == [w]
    ensures TellsAt(u, stopwords, rest, StartOf(pieces, m), StartOf(pieces, m) + |pieces[m]|, w)
  {
    PieceIsStretch(rest, NotWord(u), pieces, m);
    WordIsStretch(u, rest, StartOf(pieces, m), StartOf(pieces, m) + |pieces[m]|);
  }

  lemma TellingIsPiece(u: Unicode, stopwords: seq<string>, rest: string, pieces: seq<string>, i: nat, j: nat, w: string)
    returns (m: nat)
    requires pieces == Split(rest, NotWord(u)) && TellsAt(u, stopwords, rest, i, j, w)
    ensures m < |pieces| && StartOf(pieces, m) == i && Candidate(u, stopwords, pieces[m]) == [w]
  {
    WordIsStretch(u, rest, i, j);
    m := StretchIsPiece(rest, NotWord(u), i, j, pieces);
  }

  function Places(pieces: seq<string>, at: seq<nat>): (places: seq<(nat, nat)>)
    requires forall k | 0 <= k < |at| :: at[k] < |pieces|
    ensures |places| == |at|
    ensures forall k | 0 <= k < |at| ::
      places[k] == (StartOf(pieces, at[k]), StartOf(pieces, at[k]) + |pieces[at[k]]|)
  {
    seq(|at|, k requires 0 <= k < |at| => (StartOf(pieces, at[k]), StartOf(pieces, at[k]) + |pieces[at[k]]|))
  }

  lemma StartsOrdered(pieces: seq<string>, k: nat, l: nat)
    requires k <= l < |pieces|
    ensures StartOf(pieces, k) <= StartOf(pieces, l) && (k < l ==> StartOf(pieces, k) < StartOf(pieces, l))
  {
    if k < l {
      StartsRise(pieces, k, l);
    }
  }

  lemma FoundInRoom(pieces: seq<string>, phrases: nat, words: seq<string>, at: seq<nat>, m: nat, w: string, k: nat)
    requires |at| == |words| && m < |pieces| && forall l | 0 <= l < |at| :: at[l] < |pieces|
    requires k < |words| && words[k] == w && at[k] <= m
    ensures GetsIn(phrases, words, Places(pieces, at), StartOf(pieces, m), w)
  {
    StartsOrdered(pieces, at[k], m);
    assert Places(pieces, at)[k].0 <= StartOf(pieces, m);
  }

  lemma NoRoomLeft(pieces: seq<string>, phrases: nat, words: seq<string>, at: seq<nat>, m: nat, w: string)
    requires |at| == |words| && m < |pieces| && forall l | 0 <= l < |at| :: at[l] < m
    requires phrases + |words| >= 12
    ensures GetsIn(phrases, words, Places(pieces, at), StartOf(pieces, m), w)
  {
    forall l | 0 <= l < |at|
      ensures Places(pieces, at)[l].0 < StartOf(pieces, m)
    {
      StartsOrdered(pieces, at[l], m);
    }
  }

  lemma TakeKeepsOrder(u: Unicode, stopwords: seq<string>, pieces: seq<string>,
                       all: seq<string>, at: seq<nat>, room: nat)
    requires InOrder(u, stopwords, pieces, all, at)
    ensures InOrder(u, stopwords, pieces, Take(all, room), Take(at, room))
  {
  }

  /** A telling word either is among all the distinct ones up to where it stands, and
      within the room, or the room was filled before. */
  lemma WordGetsIn(u: Unicode, stopwords: seq<string>, pieces: seq<string>, phrases: nat,
                   all: seq<string>, at: seq<nat>, m: nat, w: string, words: seq<string>, numbers: seq<nat>)
    requires FirstPieces(u, stopwords, pieces, all, at) && m < |pieces| && Candidate(u, stopwords, pieces[m]) == [w]
    requires words == Take(all, Room(phrases)) && numbers == Take(at, Room(phrases))
    requires InOrder(u, stopwords, pieces, words, numbers)
    ensures GetsIn(phrases, words, Places(pieces, numbers), StartOf(pieces, m), w)
  {
    var k :| 0 <= k < |all| && [all[k]] == Candidate(u, stopwords, pieces[m]) && at[k] <= m;
    Taken(all, at, Room(phrases), words, numbers, k, m);
    if k < |words| {
      FoundInRoom(pieces, phrases, words, numbers, m, w, k);
    } else {
      NoRoomLeft(pieces, phrases, words, numbers, m, w);
    }
  }

  lemma Taken(all: seq<string>, at: seq<nat>, room: nat, words: seq<string>, numbers: seq<nat>, k: nat, m: nat)
    requires |all| == |at| && words == Take(all, room) && numbers == Take(at, room) && k < |all| && at[k] <= m
    requires forall i, j | 0 <= i < j < |at| :: at[i] < at[j]
    ensures |words| == |numbers|
    ensures k < |words| ==> words[k] == all[k] && numbers[k] <= m
    ensures k >= |words| ==> |words| == room && forall l | 0 <= l < |numbers| :: numbers[l] < m
  {
  }

  /** Every telling word outside the phrases is a term, in the order of the places
      where they first stand, unless twelve terms are taken by then; nothing else is. */
  lemma WordsAreFirst(u: Unicode, stopwords: seq<string>, input: string)
    returns (words: seq<string>, at: seq<(nat, nat)>)
    requires u.lowercase("") == ""
    ensures var cut := CutFrom(u, input, 0);
      && Chosen(u, stopwords, input) == PhraseTerms(cut.phrases) + WordTerms(words)
      && FirstWords(u, stopwords, cut.rest, |cut.phrases|, words, at)
  {
    var cut := CutFrom(u, input, 0);
    var pieces, phrases := Split(cut.rest, NotWord(u)), |cut.phrases|;
    var all, room := Distinct(Candidates(u, stopwords, pieces)), Room(phrases);
    var numbers := DistinctAreFirst(u, stopwords, pieces);
    TakeKeepsOrder(u, stopwords, pieces, all, numbers, room);
    words, at := Take(all, room), Places(pieces, Take(numbers, room));
    PlacesTell(u, stopwords, cut.rest, pieces, words, Take(numbers, room));
    forall i: nat, j: nat, w | TellsAt(u, stopwords, cut.rest, i, j, w)
      ensures GetsIn(phrases, words, at, i, w)
    {
      var m := TellingIsPiece(u, stopwords, cut.rest, pieces, i, j, w);
      WordGetsIn(u, stopwords, pieces, phrases, all, numbers, m, w, words, Take(numbers, room));
    }
    forall k, l | 0 <= k < l < |words|
      ensures words[k] != words[l]
    {
      DistinctDiffer(Candidates(u, stopwords, pieces), k, l);
    }
  }

  lemma PlacesTell(u: Unicode, stopwords: seq<string>, rest: string, pieces: seq<string>,
                   words: seq<string>, at: seq<nat>)
    requires u.lowercase("") == "" && pieces == Split(rest, NotWord(u)) && InOrder(u, stopwords, pieces, words, at)
    ensures var places := Places(pieces, at);
      && (forall k | 0 <= k < |places| :: TellsAt(u, stopwords, rest, places[k].0, places[k].1, words[k]))
      && (forall k, l | 0 <= k < l < |places| :: places[k].0 < places[l].0)
  {
    var places := Places(pieces, at);
    forall k | 0 <= k < |places|
      ensures TellsAt(u, stopwords, rest, places[k].0, places[k].1, words[k])
    {
      PieceTells(u, stopwords, rest, pieces, at[k], words[k]);
    }
    forall k, l | 0 <= k < l < |places|
      ensures places[k].0 < places[l].0
    {
      StartsOrdered(pieces, at[k], at[l]);
    }
  }

  lemma {:induction false} NoQuoteCut(u: Unicode, input: string, i: nat)
    requires i <= |input| && '"' !in input
    ensures CutFrom(u, input, i) == Cut(input[i..], [])
    decreases |input| - i
  {
    if i < |input| {
      NoQuoteCut(u, input, i + 1);
      assert input[i] in input && input[i..] == [input[i]] + input[i + 1..];
    }
  }

  lemma OneMore(u: Unicode, stopwords: seq<string>, pieces: seq<string>, piece: string)
    ensures Candidates(u, stopwords, pieces + [piece]) ==
            Candidates(u, stopwords, pieces) + Candidate(u, stopwords, piece)
  {
    assert (pieces + [piece])[..|pieces|] == pieces;
  }

  lemma TwoCandidates(u: Unicode, stopwords: seq<string>, a: string, b: string)
    requires Telling(u, stopwords, a) && Telling(u, stopwords, b) && u.lowercase(a) != u.lowercase(b)
    ensures Distinct(Candidates(u, stopwords, [a, b])) == [u.lowercase(a), u.lowercase(b)]
  {
    OneMore(u, stopwords, [], a);
    OneMore(u, stopwords, [a], b);
    assert [] + [a] == [a] && [a] + [b] == [a, b];
    TwoDistinct(u.lowercase(a), u.lowercase(b));
  }

  lemma TwoDistinct(x: string, y: string)
    requires x != y
    ensures Distinct([] + [x] + [y]) == [x, y]
  {
    DistinctSnoc([], x);
    DistinctSnoc([] + [x], y);
    assert [] + [x] + [y] == [x, y];
  }

  /** Two telling words make a query of two terms. */
  lemma TwoWordQuery(u: Unicode, stopwords: seq<string>, a: string, b: string)
    requires Sensible(u) && All(IsWord(u), a) && All(IsWord(u), b)
    requires Telling(u, stopwords, a) && Telling(u, stopwords, b) && u.lowercase(a) != u.lowercase(b)
    ensures Chosen(u, stopwords, a + " " + b) == [Word(u.lowercase(a)), Word(u.lowercase(b))]
    ensures Join(ShownAll(Chosen(u, stopwords, a + " " + b)), OR) == u.lowercase(a) + " OR " + u.lowercase(b)
  {
    var input, x, y := a + " " + b, u.lowercase(a), u.lowercase(b);
    assert !WordChar(u, '"') && NotWord(u)(' ');
    assert forall i | 0 <= i < |input| :: input[i] != '"';
    NoQuoteCut(u, input, 0);
    PieceEnds(a, ' ', b, NotWord(u));
    WordAlone(b, NotWord(u));
    TwoCandidates(u, stopwords, a, b);
    assert input[0..] == input && [a] + [b] == [a, b];
    assert ChosenWords(u, stopwords, input) == [x, y];
    TwoTerms(x, y);
  }

  lemma TwoTerms(x: string, y: string)
    ensures PhraseTerms([]) + WordTerms([x, y]) == [Word(x), Word(y)]
    ensures Join(ShownAll([Word(x), Word(y)]), OR) == x + " OR " + y
  {
    var shown := ShownAll([Word(x), Word(y)]);
    assert shown == [x, y] && shown[1..] == [y];
    assert Join([y], OR) == y;
  }

  /** Small letters alone. */
  function Plain(): Unicode {
    Unicode(c => 'a' <= c <= 'z', c => c == ' ', s => s)
  }

  lemma NotEarly(w: string)
    requires |w| > 7
    ensures w !in EARLY_STOPWORDS
  {
  }

  lemma NotLate(w: string)
    requires |w| > 7
    ensures w !in LATE_STOPWORDS
  {
  }

  lemma NotInEither(early: seq<string>, late: seq<string>, w: string)
    requires w !in early && w !in late
    ensures w !in early + late
  {
  }

  lemma LongIsNoStopword(w: string)
    requires |w| > 7
    ensures w !in STOPWORDS
  {
    NotEarly(w);
    NotLate(w);
    NotInEither(EARLY_STOPWORDS, LATE_STOPWORDS, w);
  }

  lemma LettersPlain(u: Unicode, stopwords: seq<string>, w: string)
    requires u == Plain() && w !in stopwords
    requires |w| > 7 && forall i | 0 <= i < |w| :: 'a' <= w[i] <= 'z'
    ensures All(IsWord(u), w) && Telling(u, stopwords, w) && u.lowercase(w) == w
  {
  }

  /** One query, spelled out. */
  lemma AuthenticationMiddleware()
    ensures Join(ShownAll(Chosen(Plain(), STOPWORDS, "authentication" + " " + "middleware")), OR) ==
            "authentication" + " OR " + "middleware"
  {
    LongIsNoStopword("authentication");
    LongIsNoStopword("middleware");
    LettersPlain(Plain(), STOPWORDS, "authentication");
    LettersPlain(Plain(), STOPWORDS, "middleware");
    TwoWordQuery(Plain(), STOPWORDS, "authentication", "middleware");
  }

  // ---- What is chosen ----

  lemma {:induction false} CandidateOf(u: Unicode, stopwords: seq<string>, pieces: seq<string>, t: string)
    returns (k: nat)
    requires t in Candidates(u, stopwords, pieces)
    ensures k < |pieces| && t == u.lowercase(pieces[k]) && |t| >= MIN_TERM_CHARS && t !in stopwords
    decreases |pieces|
  {
    k := |pieces| - 1;
    if t !in Candidate(u, stopwords, pieces[k]) {
      k := CandidateOf(u, stopwords, pieces[..k], t);
    }
  }

  /** The words of a query are pairwise distinct, long enough, no stopwords, and
      printable barewords. */
  lemma WordsChosen(u: Unicode, stopwords: seq<string>, input: string)
    requires Sensible(u)
    ensures var words := ChosenWords(u, stopwords, input);
      && (forall w | w in words :: |w| >= MIN_TERM_CHARS && w !in stopwords && Printable(Word(w)))
      && (forall i, j | 0 <= i < j < |words| :: words[i] != words[j])
      && |words| <= Room(|CutFrom(u, input, 0).phrases|)
  {
    var pieces := Split(CutFrom(u, input, 0).rest, NotWord(u));
    var tokens := Candidates(u, stopwords, pieces);
    var words := ChosenWords(u, stopwords, input);
    assert forall i | 0 <= i < |words| :: words[i] == Distinct(tokens)[i];
    forall w | w in words
      ensures |w| >= MIN_TERM_CHARS && w !in stopwords && Printable(Word(w))
    {
      DistinctHolds(tokens, w);
      var k := CandidateOf(u, stopwords, pieces, w);
      forall i | 0 <= i < |pieces[k]|
        ensures WordChar(u, pieces[k][i])
      {
        PiecesFree(CutFrom(u, input, 0).rest, NotWord(u), k, i);
      }
    }
    forall i, j | 0 <= i < j < |words|
      ensures words[i] != words[j]
    {
      DistinctDiffer(tokens, i, j);
    }
  }

  lemma {:induction false} JoinedFrom(words: seq<string>, p: char -> bool)
    requires p(' ') && forall w | w in words :: All(p, w)
    ensures All(p, Join(words, " "))
    decreases |words|
  {
    if |words| == 1 {
      assert words[0] in words;
    } else if |words| > 1 {
      assert words[0] in words && forall w | w in words[1..] :: w in words;
      JoinedFrom(words[1..], p);
    }
  }

  /** Only word characters and blanks are left in a cleaned phrase. */
  lemma CleanedChars(u: Unicode, phrase: string)
    ensures All(IsClean(u), SanitizePhrase(u, phrase))
  {
    var blanked := Blank(u, phrase);
    var words := SplitWhitespace(blanked, u.whitespace);
    forall w | w in words
      ensures All(IsClean(u), w)
    {
      SplitWordFree(blanked, u.whitespace, w);
      forall i | 0 <= i < |w|
        ensures IsClean(u)(w[i])
      {
        assert w[i] in w && w[i] in blanked;
      }
    }
    JoinedFrom(words, IsClean(u));
  }

  lemma {:induction false} PhrasesClean(u: Unicode, input: string, i: nat, k: nat)
    requires Sensible(u) && i <= |input| && k < |CutFrom(u, input, i).phrases|
    ensures var phrase := CutFrom(u, input, i).phrases[k];
      Printable(Phrase(phrase)) && |SplitWhitespace(phrase, u.whitespace)| > 1
    decreases |input| - i
  {
    if input[i] != '"' {
      PhrasesClean(u, input, i + 1, k);
    } else {
      var end := ClosingQuote(input, i + 1);
      var cleaned, after := SanitizePhrase(u, input[i + 1..end]), Past(input, end);
      CleanedChars(u, input[i + 1..end]);
      assert !WordChar(u, '"');
      if |SplitWhitespace(cleaned, u.whitespace)| <= 1 {
        PhrasesClean(u, input, after, k);
      } else if k > 0 {
        PhrasesClean(u, input, after, k - 1);
      }
    }
  }

  /** For every input, the query parses to the OR of exactly the chosen terms, of
      which there are at most twelve or as many as there are phrases. */
  lemma QueryExact(u: Unicode, stopwords: seq<string>, input: string)
    requires Sensible(u)
    ensures var terms, phrases := Chosen(u, stopwords, input), |CutFrom(u, input, 0).phrases|;
      && (terms != [] ==> ParseQuery(Join(ShownAll(terms), OR)) == Some(OrOf(terms)))
      && |terms| <= if phrases > MAX_TERMS then phrases else MAX_TERMS
  {
    var terms, phrases := Chosen(u, stopwords, input), CutFrom(u, input, 0).phrases;
    WordsChosen(u, stopwords, input);
    forall t | t in terms
      ensures Printable(t)
    {
      if t.Phrase? {
        var k :| 0 <= k < |phrases| && phrases[k] == t.text;
        PhrasesClean(u, input, 0, k);
      } else {
        assert t.text in ChosenWords(u, stopwords, input);
      }
    }
    if terms != [] {
      PrintedParses(terms);
    }
  }

  // ---- Cleaning a phrase keeps its words ----

  /** Cleaning replaces syntax by blanks and collapses them, and loses no word; so
      cleaning twice is cleaning once. */
  lemma CleaningKeepsWords(u: Unicode, phrase: string)
    requires Sensible(u)
    ensures SplitWhitespace(SanitizePhrase(u, phrase), u.whitespace) == SplitWhitespace(Blank(u, phrase), u.whitespace)
    ensures SanitizePhrase(u, SanitizePhrase(u, phrase)) == SanitizePhrase(u, phrase)
  {
    var blanked := Blank(u, phrase);
    var words := SplitWhitespace(blanked, u.whitespace);
    forall w | w in words
      ensures w != "" && Solid(w, u.whitespace)
    {
      SplitWordFree(blanked, u.whitespace, w);
    }
    WordsOfJoin(words, u.whitespace);
    CleanedChars(u, phrase);
    var cleaned := SanitizePhrase(u, phrase);
    assert Blank(u, cleaned) == cleaned;
  }

  // ---- Quoted and unquoted pieces alternate ----

  predicate IsQuote(c: char) {
    c == '"'
  }

  /** The same cut, told by the pieces between quotes: plain, quoted, plain, ... */
  function Alternate(u: Unicode, pieces: seq<string>, quoted: bool): Cut {
    if pieces == [] then Cut("", [])
    else
      var after := Alternate(u, pieces[1..], !quoted);
      if quoted then Quoted(u, SanitizePhrase(u, pieces[0]), after)
      else Cut(pieces[0] + after.rest, after.phrases)
  }

  /** Up to the next quote the text is kept as it is. */
  lemma {:induction false} PlainPrefix(u: Unicode, input: string, i: nat)
    requires i <= |input|
    ensures var q := ClosingQuote(input, i);
      CutFrom(u, input, i) == Cut(input[i..q] + CutFrom(u, input, q).rest, CutFrom(u, input, q).phrases)
    decreases |input| - i
  {
    var q := ClosingQuote(input, i);
    var after := CutFrom(u, input, q);
    if i < q {
      PlainPrefix(u, input, i + 1);
      assert [input[i]] + input[i + 1..q] == input[i..q];
      Assoc([input[i]], input[i + 1..q], after.rest);
    } else {
      assert input[i..q] + after.rest == after.rest;
    }
  }

  lemma QuoteLast(input: string, i: nat)
    requires i <= |input| && ClosingQuote(input, i) == |input|
    ensures Split(input[i..], IsQuote) == [input[i..]]
  {
    WordAlone(input[i..], IsQuote);
  }

  lemma QuoteNext(input: string, i: nat, q: nat)
    requires i <= |input| && q == ClosingQuote(input, i) < |input|
    ensures Split(input[i..], IsQuote) == [input[i..q]] + Split(input[q + 1..], IsQuote)
  {
    PieceEnds(input[i..q], '"', input[q + 1..], IsQuote);
    assert input[i..] == input[i..q] + ['"'] + input[q + 1..];
  }

  /** The pieces between quotes, from `i` on. */
  function Pieces(input: string, i: nat): seq<string>
    requires i <= |input|
    decreases |input| - i, 2
  {
    var q := ClosingQuote(input, i);
    [input[i..q]] + PiecesPast(input, q)
  }

  function PiecesPast(input: string, end: nat): seq<string>
    requires end <= |input|
    decreases |input| - end, 1
  {
    if end < |input| then Pieces(input, end + 1) else []
  }

  lemma {:induction false} PiecesAreSplit(input: string, i: nat, pieces: seq<string>)
    requires i <= |input| && pieces == Pieces(input, i)
    ensures Split(input[i..], IsQuote) == pieces
    decreases |input| - i
  {
    var q := ClosingQuote(input, i);
    if q < |input| {
      var rest := Pieces(input, q + 1);
      PiecesAreSplit(input, q + 1, rest);
      QuoteNext(input, i, q);
    } else {
      QuoteLast(input, i);
      assert input[i..q] == input[i..];
    }
  }

  /** Both sides step from one unquoted stretch to the next. */
  lemma {:induction false} CutFollowsPieces(u: Unicode, input: string, i: nat, pieces: seq<string>)
    requires i <= |input| && pieces == Pieces(input, i)
    ensures CutFrom(u, input, i) == Alternate(u, pieces, false)
    decreases |input| - i
  {
    var q := ClosingQuote(input, i);
    if q < |input| {
      var end := ClosingQuote(input, q + 1);
      var rest := PiecesPast(input, end);
      if end < |input| {
        CutFollowsPieces(u, input, end + 1, rest);
      }
      AfterPhrase(u, input, q, end, rest);
    }
    PlainStep(u, input, i, q, PiecesPast(input, q));
  }

  lemma PlainStep(u: Unicode, input: string, i: nat, q: nat, rest: seq<string>)
    requires i <= |input| && q == ClosingQuote(input, i) && rest == PiecesPast(input, q)
    requires CutFrom(u, input, q) == Alternate(u, rest, true)
    ensures CutFrom(u, input, i) == Alternate(u, Pieces(input, i), false)
  {
    PlainPrefix(u, input, i);
    FirstPiece(u, input[i..q], rest);
  }

  lemma FirstPiece(u: Unicode, plain: string, rest: seq<string>)
    ensures var after := Alternate(u, rest, true);
      Alternate(u, [plain] + rest, false) == Cut(plain + after.rest, after.phrases)
  {
    assert ([plain] + rest)[1..] == rest;
  }

  lemma AfterPhrase(u: Unicode, input: string, q: nat, end: nat, rest: seq<string>)
    requires q < |input| && input[q] == '"' && end == ClosingQuote(input, q + 1) && rest == PiecesPast(input, end)
    requires CutFrom(u, input, Past(input, end)) == Alternate(u, rest, false)
    ensures CutFrom(u, input, q) == Alternate(u, Pieces(input, q + 1), true)
  {
    QuotedFirst(u, input[q + 1..end], rest);
  }

  lemma QuotedFirst(u: Unicode, phrase: string, rest: seq<string>)
    ensures Alternate(u, [phrase] + rest, true) == Quoted(u, SanitizePhrase(u, phrase), Alternate(u, rest, false))
  {
    assert ([phrase] + rest)[1..] == rest;
  }

  /** What the character loop keeps and takes out is what the pieces between quotes
      say: every second one is quoted, and the last may be left unclosed. */
  lemma CutAlternates(u: Unicode, input: string)
    ensures CutFrom(u, input, 0) == Alternate(u, Split(input, IsQuote), false)
  {
    CutFollowsPieces(u, input, 0, Pieces(input, 0));
    PiecesAreSplit(input, 0, Pieces(input, 0));
    assert input[0..] == input;
  }
}
