/** The hooks object of an editor's settings: written on setup, and read back by
    the next run to keep the choices it was written with. */
module Setup {
  import opened Wrappers
  import opened Sequences
  import opened Words
  import opened TextOrder

  // ---- JSON ----

  datatype Json =
    | Null
    | Boolean(b: bool)
    | Number(n: int)
    | Text(s: string)
    | Array(items: seq<Json>)
    | Object(fields: map<string, Json>)

  function Get(v: Json, key: string): Option<Json> {
    if v.Object? && key in v.fields then Some(v.fields[key]) else None
  }

  /** An array's items; nothing for a missing field or another kind of value. */
  function Items(v: Option<Json>): seq<Json> {
    if v.Some? && v.value.Array? then v.value.items else []
  }

  function Fields(v: Json): map<string, Json> {
    if v.Object? then v.fields else map[]
  }

  // ---- Quoting ----

  const QUOTE: char := '\''

  function Escape(s: string): string {
    if s == "" then ""
    else (if s[0] == QUOTE then [QUOTE, '\\', QUOTE, QUOTE] else [s[0]]) + Escape(s[1..])
  }

  function ShellQuote(s: string): string {
    [QUOTE] + Escape(s) + [QUOTE]
  }

  predicate IsQuote(c: char) {
    c == QUOTE || c == '"'
  }

  function TrimStart(s: string): string {
    if s != "" && IsQuote(s[0]) then TrimStart(s[1..]) else s
  }

  function TrimEnd(s: string): string {
    if s != "" && IsQuote(s[|s| - 1]) then TrimEnd(s[..|s| - 1]) else s
  }

  /** Strip quotes from both ends, however many. */
  function Unquote(s: string): string {
    TrimEnd(TrimStart(s))
  }

  predicate Edged(s: string) {
    s != "" && !IsQuote(s[0]) && !IsQuote(s[|s| - 1])
  }

  lemma {:induction false} EscapePlain(s: string)
    ensures QUOTE !in s ==> Escape(s) == s
    ensures QUOTE in s ==> |Escape(s)| > |s|
    ensures |Escape(s)| >= |s|
    decreases |s|
  {
    if s != "" {
      EscapePlain(s[1..]);
      assert s == [s[0]] + s[1..];
    }
  }

  lemma {:induction false} EscapeEdges(s: string)
    requires s != ""
    ensures Escape(s) != "" && Escape(s)[0] == s[0] && Escape(s)[|Escape(s)| - 1] == s[|s| - 1]
    decreases |s|
  {
    if |s| > 1 {
      EscapeEdges(s[1..]);
    } else {
      assert s[1..] == "";
    }
  }

  lemma TrimNothing(s: string)
    requires Edged(s)
    ensures Unquote([QUOTE] + s + [QUOTE]) == s
  {
    var q, t := [QUOTE] + s + [QUOTE], s + [QUOTE];
    assert q[1..] == t && t[0] == s[0] && t[|s|] == QUOTE && t[..|s|] == s;
    assert TrimStart(q) == TrimStart(t) == t;
    assert TrimEnd(t) == TrimEnd(s) == s;
  }

  lemma {:induction false} TrimStartEdge(s: string)
    ensures TrimStart(s) != "" ==> !IsQuote(TrimStart(s)[0])
    decreases |s|
  {
    if s != "" && IsQuote(s[0]) {
      TrimStartEdge(s[1..]);
    }
  }

  lemma {:induction false} TrimEndEdge(s: string)
    ensures TrimEnd(s) <= s && (TrimEnd(s) != "" ==> !IsQuote(TrimEnd(s)[|TrimEnd(s)| - 1]))
    decreases |s|
  {
    if s != "" && IsQuote(s[|s| - 1]) {
      TrimEndEdge(s[..|s| - 1]);
    }
  }

  /** Whatever unquoting leaves has no quote at either end. */
  lemma UnquoteEdges(s: string)
    ensures Unquote(s) == "" || Edged(Unquote(s))
  {
    TrimStartEdge(s);
    TrimEndEdge(TrimStart(s));
  }

  /** A quoted argument is read back as itself exactly when it holds no single
      quote and neither starts nor ends with a double one. */
  lemma QuoteReadBackExactly(s: string)
    requires s != ""
    ensures Unquote(ShellQuote(s)) == s <==> Edged(s) && QUOTE !in s
  {
    EscapePlain(s);
    EscapeEdges(s);
    UnquoteEdges(ShellQuote(s));
    if Edged(s) {
      TrimNothing(Escape(s));
    }
  }

  // ---- Reading entries ----

  const RUNAR: string := "runar"

  predicate Contains(s: string, part: string) {
    exists i | 0 <= i <= |s| :: OccursAt(s, part, i)
  }

  function CommandOf(h: Json): string {
    var command := Get(h, "command");
    if command.Some? && command.value.Text? then command.value.s else ""
  }

  predicate Owned(h: Json) {
    Contains(CommandOf(h), RUNAR)
  }

  function HooksOf(entry: Json): seq<Json> {
    Items(Get(entry, "hooks"))
  }

  predicate IsRunar(entry: Json) {
    exists h | h in HooksOf(entry) :: Owned(h)
  }

  /** Keep the entries with no command of ours, in order. */
  function FilterRunar(entries: seq<Json>): seq<Json> {
    if entries == [] then []
    else (if IsRunar(entries[0]) then [] else [entries[0]]) + FilterRunar(entries[1..])
  }

  function UnquoteAll(words: seq<string>): (r: seq<string>)
    ensures |r| == |words| && forall i | 0 <= i < |words| :: r[i] == Unquote(words[i])
  {
    seq(|words|, i requires 0 <= i < |words| => Unquote(words[i]))
  }

  function Texts(items: seq<Json>): seq<string> {
    if items == [] then []
    else (if items[0].Text? then [items[0].s] else []) + Texts(items[1..])
  }

  function HookTokens(white: char -> bool, h: Json): seq<string> {
    if !Owned(h) then []
    else CommandTokens(white, h) + ArgTokens(h)
  }

  function CommandTokens(white: char -> bool, h: Json): seq<string> {
    UnquoteAll(SplitWhitespace(CommandOf(h), white))
  }

  function ArgTokens(h: Json): seq<string> {
    UnquoteAll(Texts(Items(Get(h, "args"))))
  }

  function TokensUpTo(white: char -> bool, hooks: seq<Json>, n: nat): seq<string>
    requires n <= |hooks|
  {
    if n == 0 then [] else TokensUpTo(white, hooks, n - 1) + HookTokens(white, hooks[n - 1])
  }

  lemma TokensStep(white: char -> bool, hooks: seq<Json>, i: nat)
    requires i < |hooks|
    ensures TokensUpTo(white, hooks, i + 1) ==
      if Owned(hooks[i]) then TokensUpTo(white, hooks, i) + CommandTokens(white, hooks[i]) + ArgTokens(hooks[i])
      else TokensUpTo(white, hooks, i)
  {
    Assoc(TokensUpTo(white, hooks, i), CommandTokens(white, hooks[i]), ArgTokens(hooks[i]));
  }

  function Tokens(white: char -> bool, entry: Json): seq<string> {
    TokensUpTo(white, HooksOf(entry), |HooksOf(entry)|)
  }

  method RunarHookTokens(white: char -> bool, entry: Json) returns (tokens: seq<string>)
    ensures tokens == Tokens(white, entry)
  {
    tokens := [];
    var hooks := HooksOf(entry);
    for i := 0 to |hooks|
      invariant tokens == TokensUpTo(white, hooks, i)
    {
      TokensStep(white, hooks, i);
      if !Owned(hooks[i]) {
        continue;
      }
      var words, args := CommandTokens(white, hooks[i]), ArgTokens(hooks[i]);
      tokens := tokens + words;
      tokens := tokens + args;
    }
  }

  /** Entries that are not ours have no tokens. */
  lemma {:induction false} ForeignSilent(white: char -> bool, hooks: seq<Json>, n: nat)
    requires n <= |hooks| && forall h | h in hooks :: !Owned(h)
    ensures TokensUpTo(white, hooks, n) == []
  {
    if n > 0 {
      ForeignSilent(white, hooks, n - 1);
      assert hooks[n - 1] in hooks;
    }
  }

  lemma {:induction false} FilteredForeign(entries: seq<Json>, entry: Json)
    requires entry in FilterRunar(entries)
    ensures !IsRunar(entry) && entry in entries
  {
    if entry in FilterRunar(entries[1..]) {
      FilteredForeign(entries[1..], entry);
    }
  }

  lemma {:induction false} FilterConcat(a: seq<Json>, b: seq<Json>)
    ensures FilterRunar(a + b) == FilterRunar(a) + FilterRunar(b)
    decreases |a|
  {
    if a == [] {
      assert a + b == b;
    } else {
      assert (a + b)[1..] == a[1..] + b;
      FilterConcat(a[1..], b);
    }
  }

  lemma {:induction false} FilterForeign(entries: seq<Json>)
    requires forall e | e in entries :: !IsRunar(e)
    ensures FilterRunar(entries) == entries
  {
    if entries != [] {
      var head, rest := entries[0], entries[1..];
      assert entries == [head] + rest && head in entries && forall e | e in rest :: e in entries;
      FilterForeign(rest);
    }
  }

  lemma {:induction false} FilterOwn(entries: seq<Json>)
    requires forall e | e in entries :: IsRunar(e)
    ensures FilterRunar(entries) == []
  {
    if entries != [] {
      assert entries[0] in entries && forall e | e in entries[1..] :: e in entries;
      FilterOwn(entries[1..]);
    }
  }

  // ---- Writing entries ----

  datatype Kind = Hint | Context | Refresh | Ping | SaveAck | Extract | Enqueue | Nudge | Summarize

  const PROJECT: string := "--project"
  const SILENT: string := "--silent"

  function Verb(kind: Kind): seq<string> {
    match kind
    case Hint => ["hint"]
    case Context => ["context"]
    case Refresh => ["graph", "autorefresh"]
    case Ping => ["session", "ping"]
    case SaveAck => ["save-ack"]
    case Extract => ["extract"]
    case Enqueue => ["enqueue"]
    case Nudge => ["nudge"]
    case Summarize => ["summarize"]
  }

  datatype Config = Config(binary: string, id: string, log: string, capture: bool, hints: bool, refresh: bool)

  function Args(kind: Kind, id: string): seq<string> {
    Verb(kind) + [SILENT, PROJECT, id]
  }

  function QuoteAll(words: seq<string>): (r: seq<string>)
    ensures |r| == |words| && forall i | 0 <= i < |words| :: r[i] == ShellQuote(words[i])
  {
    seq(|words|, i requires 0 <= i < |words| => ShellQuote(words[i]))
  }

  /** Standard error goes to the log, and the hook always returns zero. */
  function LogTail(log: string): string {
    "2>>" + ShellQuote(log) + " " + "; exit 0"
  }

  function Command(cfg: Config, kind: Kind): string {
    ShellQuote(cfg.binary) + " " + (Join(QuoteAll(Args(kind, cfg.id)), " ") + " " + LogTail(cfg.log))
  }

  datatype Hook = Hook(kind: Kind, matcher: string)

  function EntryFor(cfg: Config, hook: Hook): Json {
    Object(map[
      "matcher" := Text(hook.matcher),
      "hooks" := Array([Object(map["type" := Text("command"), "command" := Text(Command(cfg, hook.kind))])])])
  }

  const PRE: string := "PreToolUse"
  const POST: string := "PostToolUse"
  const PROMPT: string := "UserPromptSubmit"
  const START: string := "SessionStart"
  const END: string := "SessionEnd"

  const ANY: string := ".*"
  const EDITS: string := "Write|Edit|Create|MultiEdit"
  const EDITS_AND_BASH: string := "Write|Edit|Create|MultiEdit|Bash"
  const SEARCHES: string := "Grep|Glob"
  const SAVES: string := "mcp__muninn__muninn_save"

  datatype Event = PreTool | PostTool | UserPrompt | SessionStart | SessionEnd

  function Key(e: Event): string {
    match e
    case PreTool => PRE
    case PostTool => POST
    case UserPrompt => PROMPT
    case SessionStart => START
    case SessionEnd => END
  }

  /** The hooks a configuration asks for at an event. */
  function OwnHooks(cfg: Config, e: Event): seq<Hook> {
    match e
    case PreTool => if cfg.hints then [Hook(Hint, SEARCHES)] else []
    case PostTool =>
      [Hook(Ping, EDITS), Hook(SaveAck, SAVES), Hook(Extract, EDITS_AND_BASH)] +
      (if cfg.capture then [Hook(Enqueue, EDITS_AND_BASH)] else []) +
      (if cfg.refresh then [Hook(Refresh, EDITS)] else [])
    case UserPrompt => [Hook(Nudge, ANY)]
    case SessionStart => [Hook(Context, ANY)] + (if cfg.refresh then [Hook(Refresh, ANY)] else [])
    case SessionEnd => if cfg.capture then [Hook(Summarize, ANY)] else []
  }

  function EntriesFor(cfg: Config, hooks: seq<Hook>): (entries: seq<Json>)
    ensures |entries| == |hooks|
    ensures forall i | 0 <= i < |entries| :: entries[i] == EntryFor(cfg, hooks[i])
  {
    seq(|hooks|, i requires 0 <= i < |hooks| => EntryFor(cfg, hooks[i]))
  }

  function OwnEntries(cfg: Config, e: Event): seq<Json> {
    EntriesFor(cfg, OwnHooks(cfg, e))
  }

  /** What an event should hold: the foreign entries it held, then ours. */
  function Wanted(existing: Json, cfg: Config, e: Event): seq<Json> {
    FilterRunar(Items(Get(existing, Key(e)))) + OwnEntries(cfg, e)
  }

  ghost predicate Managed(key: string) {
    exists e: Event :: key == Key(e)
  }

  /** What is written: the wanted entries at every managed event, except that an
      empty tool event is dropped and a session end nobody asked for is left as it
      was; every other key is as it was. */
  ghost predicate IsBuilt(existing: Json, cfg: Config, hooks: map<string, Json>) {
    && (forall key | !Managed(key) :: SameAt(Fields(existing), hooks, key))
    && (forall e: Event | e != PreTool && e != SessionEnd :: Holds(hooks, Key(e), Wanted(existing, cfg, e)))
    && (if Wanted(existing, cfg, PreTool) == [] then PRE !in hooks
        else Holds(hooks, PRE, Wanted(existing, cfg, PreTool)))
    && (if cfg.capture then Holds(hooks, END, Wanted(existing, cfg, SessionEnd))
        else SameAt(Fields(existing), hooks, END))
  }

  predicate SameAt(a: map<string, Json>, b: map<string, Json>, key: string) {
    (key in a <==> key in b) && (key in a ==> a[key] == b[key])
  }

  predicate Holds(hooks: map<string, Json>, key: string, entries: seq<Json>) {
    key in hooks && hooks[key] == Array(entries)
  }

  lemma KeysDiffer()
    ensures PRE != POST && PRE != PROMPT && PRE != START && PRE != END
    ensures POST != PROMPT && POST != START && POST != END
    ensures PROMPT != START && PROMPT != END && START != END
  {
    assert |PRE| == 10 && |POST| == 11 && |PROMPT| == 16 && |START| == 12 && |END| == 10;
    assert PRE[0] == 'P' && END[0] == 'S';
  }

  lemma Snoc<T>(front: seq<T>, s: seq<T>, i: nat)
    requires i < |s|
    ensures front + s[..i + 1] == front + s[..i] + [s[i]]
  {
  }

  method PushAll(cfg: Config, foreign: seq<Json>, hooks: seq<Hook>) returns (entries: seq<Json>)
    ensures entries == foreign + EntriesFor(cfg, hooks)
  {
    entries := foreign;
    ghost var own := EntriesFor(cfg, hooks);
    for i := 0 to |hooks|
      invariant entries == foreign + own[..i]
    {
      Snoc(foreign, own, i);
      entries := entries + [EntryFor(cfg, hooks[i])];
    }
    assert own[..|hooks|] == own;
  }

  /** The foreign entries of an event, with ours pushed after them one by one. */
  method EntriesAt(existing: Json, cfg: Config, e: Event) returns (entries: seq<Json>)
    ensures entries == Wanted(existing, cfg, e)
  {
    entries := PushAll(cfg, FilterRunar(Items(Get(existing, Key(e)))), OwnHooks(cfg, e));
  }

  method BuildHooksObject(existing: Json, cfg: Config) returns (hooks: map<string, Json>)
    ensures IsBuilt(existing, cfg, hooks)
  {
    var preTool := EntriesAt(existing, cfg, PreTool);
    var sessionStart := EntriesAt(existing, cfg, SessionStart);
    var postTool := EntriesAt(existing, cfg, PostTool);
    var userPrompt := EntriesAt(existing, cfg, UserPrompt);
    var sessionEnd := EntriesAt(existing, cfg, SessionEnd);

    hooks := Fields(existing);
    if preTool == [] {
      hooks := hooks - {PRE};
    } else {
      hooks := hooks[PRE := Array(preTool)];
    }
    hooks := hooks[START := Array(sessionStart)];
    hooks := hooks[POST := Array(postTool)];
    hooks := hooks[PROMPT := Array(userPrompt)];
    if cfg.capture {
      hooks := hooks[END := Array(sessionEnd)];
    }
    Assembled(existing, cfg, preTool, sessionStart, postTool, userPrompt, sessionEnd, hooks);
  }

  function Assemble(was: map<string, Json>, pre: seq<Json>, start: seq<Json>, post: seq<Json>, prompt: seq<Json>,
                    end: seq<Json>, capture: bool): map<string, Json> {
    var tools := if pre == [] then was - {PRE} else was[PRE := Array(pre)];
    var three := tools[START := Array(start)][POST := Array(post)][PROMPT := Array(prompt)];
    if capture then three[END := Array(end)] else three
  }

  lemma AssembledAt(was: map<string, Json>, pre: seq<Json>, start: seq<Json>, post: seq<Json>, prompt: seq<Json>,
                    end: seq<Json>, capture: bool, key: string)
    ensures var hooks := Assemble(was, pre, start, post, prompt, end, capture);
      && (if pre == [] then PRE !in hooks else Holds(hooks, PRE, pre))
      && Holds(hooks, START, start) && Holds(hooks, POST, post) && Holds(hooks, PROMPT, prompt)
      && (if capture then Holds(hooks, END, end) else SameAt(was, hooks, END))
      && (key != PRE && key != START && key != POST && key != PROMPT && key != END ==> SameAt(was, hooks, key))
  {
    KeysDiffer();
  }

  lemma Assembled(existing: Json, cfg: Config, pre: seq<Json>, start: seq<Json>, post: seq<Json>, prompt: seq<Json>,
                  end: seq<Json>, hooks: map<string, Json>)
    requires pre == Wanted(existing, cfg, PreTool) && start == Wanted(existing, cfg, SessionStart)
    requires post == Wanted(existing, cfg, PostTool) && prompt == Wanted(existing, cfg, UserPrompt)
    requires end == Wanted(existing, cfg, SessionEnd)
    requires hooks == Assemble(Fields(existing), pre, start, post, prompt, end, cfg.capture)
    ensures IsBuilt(existing, cfg, hooks)
  {
    AssembledAt(Fields(existing), pre, start, post, prompt, end, cfg.capture, "");
    forall key | !Managed(key)
      ensures SameAt(Fields(existing), hooks, key)
    {
      UnmanagedKey(key);
      AssembledAt(Fields(existing), pre, start, post, prompt, end, cfg.capture, key);
    }
    forall e: Event | e != PreTool && e != SessionEnd
      ensures Holds(hooks, Key(e), Wanted(existing, cfg, e))
    {
    }
  }

  lemma UnmanagedKey(key: string)
    requires !Managed(key)
    ensures key != PRE && key != POST && key != PROMPT && key != START && key != END
  {
    assert Key(PreTool) == PRE && Key(PostTool) == POST && Key(UserPrompt) == PROMPT;
    assert Key(SessionStart) == START && Key(SessionEnd) == END;
  }

  // ---- Reading the choices back ----

  const HINT: string := "hint"
  const AUTOREFRESH: string := "autorefresh"
  const ENQUEUE: string := "enqueue"
  const SUMMARIZE: string := "summarize"

  predicate EventHas(white: char -> bool, v: Json, key: string, word: string) {
    exists entry | entry in Items(Get(v, key)) :: word in Tokens(white, entry)
  }

  predicate AnyEventHas(white: char -> bool, v: Json, word: string) {
    exists key | key in Fields(v) :: EventHas(white, v, key, word)
  }

  predicate InstalledSearchHints(white: char -> bool, v: Json) {
    EventHas(white, v, PRE, HINT)
  }

  predicate InstalledGraphAutorefresh(white: char -> bool, v: Json) {
    AnyEventHas(white, v, AUTOREFRESH)
  }

  predicate InstalledAutoCapture(white: char -> bool, v: Json) {
    AnyEventHas(white, v, ENQUEUE) || AnyEventHas(white, v, SUMMARIZE)
  }

  /** The argument of the first `--project` that has one. */
  function IdOfTokens(tokens: seq<string>): Option<string>
    decreases |tokens|
  {
    if |tokens| < 2 then None
    else if tokens[0] != PROJECT then IdOfTokens(tokens[1..])
    else if tokens[1] != "" then Some(tokens[1])
    else IdOfTokens(tokens[2..])
  }

  function IdOfEntries(white: char -> bool, entries: seq<Json>): Option<string> {
    if entries == [] then None
    else
      var id := IdOfTokens(Tokens(white, entries[0]));
      if id.Some? then id else IdOfEntries(white, entries[1..])
  }

  function IdOfEvent(white: char -> bool, v: Json, key: string): Option<string> {
    IdOfEntries(white, Items(Get(v, key)))
  }

  /** The id read back is that of the first event, in text order of names, that has one. */
  ghost predicate ReadsId(white: char -> bool, v: Json, id: Option<string>) {
    match id
    case None => forall key | key in Fields(v) :: IdOfEvent(white, v, key) == None
    case Some(_) => exists key | key in Fields(v) :: IsFirstId(white, v, key, id)
  }

  ghost predicate IsFirstId(white: char -> bool, v: Json, key: string, id: Option<string>) {
    IdOfEvent(white, v, key) == id &&
    forall other | other in Fields(v) && Before(other, key) :: IdOfEvent(white, v, other) == None
  }

  /** `order` iterates the object: every key, in text order. */
  ghost predicate Iterates(v: Json, order: seq<string>) {
    && (forall key :: key in Fields(v) <==> key in order)
    && (forall i, j | 0 <= i < j < |order| :: Before(order[i], order[j]))
  }

  method IdFromTokens(tokens: seq<string>) returns (id: Option<string>)
    ensures id == IdOfTokens(tokens)
  {
    var i := 0;
    assert tokens[0..] == tokens;
    while i < |tokens|
      invariant i <= |tokens| && IdOfTokens(tokens) == IdOfTokens(tokens[i..])
    {
      var tok := tokens[i];
      ghost var rest := tokens[i..];
      assert rest[1..] == tokens[i + 1..];
      i := i + 1;
      if tok != PROJECT {
        continue;
      }
      if i < |tokens| {
        assert rest[2..] == tokens[i + 1..];
        if tokens[i] != "" {
          return Some(tokens[i]);
        }
        i := i + 1;
      }
    }
    id := None;
  }

  method InstalledProjectId(white: char -> bool, v: Json, order: seq<string>) returns (id: Option<string>)
    requires Iterates(v, order)
    ensures ReadsId(white, v, id)
  {
    for k := 0 to |order|
      invariant forall j | 0 <= j < k :: IdOfEvent(white, v, order[j]) == None
    {
      id := IdFromEntries(white, Items(Get(v, order[k])));
      if id.Some? {
        FirstInOrder(white, v, order, k, id);
        return;
      }
    }
    id := None;
  }

  method IdFromEntries(white: char -> bool, entries: seq<Json>) returns (id: Option<string>)
    ensures id == IdOfEntries(white, entries)
  {
    assert entries[0..] == entries;
    for n := 0 to |entries|
      invariant IdOfEntries(white, entries) == IdOfEntries(white, entries[n..])
    {
      assert entries[n..][1..] == entries[n + 1..];
      var tokens := RunarHookTokens(white, entries[n]);
      id := IdFromTokens(tokens);
      if id.Some? {
        return;
      }
    }
    id := None;
  }

  lemma FirstInOrder(white: char -> bool, v: Json, order: seq<string>, k: nat, id: Option<string>)
    requires Iterates(v, order) && k < |order| && id.Some? && IdOfEvent(white, v, order[k]) == id
    requires forall j | 0 <= j < k :: IdOfEvent(white, v, order[j]) == None
    ensures ReadsId(white, v, id)
  {
    forall other | other in Fields(v) && Before(other, order[k])
      ensures IdOfEvent(white, v, other) == None
    {
      var j :| 0 <= j < |order| && order[j] == other;
      BeforeIrreflexive(other);
      if k < j {
        BeforeAsymmetric(other, order[k]);
      }
    }
    assert order[k] in order;
  }

  // ---- The tokens of what is written ----

  ghost predicate Sensible(white: char -> bool) {
    white(' ') && forall c | 33 <= c as int < 127 :: !white(c)
  }

  /** A token that stands for itself, quoted or not. */
  ghost predicate Token(white: char -> bool, w: string) {
    Edged(w) && QUOTE !in w && Solid(w, white)
  }

  predicate Detecting(w: string) {
    w == HINT || w == AUTOREFRESH || w == ENQUEUE || w == SUMMARIZE || w == PROJECT
  }

  function Front(white: char -> bool, cfg: Config): seq<string> {
    UnquoteAll(SplitWhitespace(ShellQuote(cfg.binary), white))
  }

  function LogWords(white: char -> bool, cfg: Config): seq<string> {
    UnquoteAll(SplitWhitespace("2>>" + ShellQuote(cfg.log), white))
  }

  /** The binary's path names the program, and no word of it is the project option. */
  ghost predicate Readable(white: char -> bool, cfg: Config) {
    Contains(cfg.binary, RUNAR) && PROJECT !in Front(white, cfg)
  }

  lemma {:induction false} EscapeConcat(a: string, b: string)
    ensures Escape(a + b) == Escape(a) + Escape(b)
    decreases |a|
  {
    if a == "" {
      assert a + b == b;
    } else {
      assert (a + b)[1..] == a[1..] + b;
      EscapeConcat(a[1..], b);
    }
  }

  lemma OccursInside(x: string, part: string, y: string)
    ensures Contains(x + part + y, part)
  {
    var s := x + part + y;
    assert s[|x|..|x| + |part|] == part;
    assert OccursAt(s, part, |x|);
  }

  lemma EscapeKeeps(s: string, part: string)
    returns (x: string, y: string)
    requires Contains(s, part) && QUOTE !in part
    ensures ShellQuote(s) == x + part + y
  {
    var i :| 0 <= i <= |s| && OccursAt(s, part, i);
    var a, b := s[..i], s[i + |part|..];
    assert s == a + (part + b);
    EscapeConcat(a, part + b);
    EscapeConcat(part, b);
    EscapePlain(part);
    x, y := [QUOTE] + Escape(a), Escape(b) + [QUOTE];
    FiveParts([QUOTE], Escape(a), part, Escape(b), [QUOTE]);
  }

  lemma FiveParts(q: string, a: string, part: string, b: string, r: string)
    ensures q + (a + (part + b)) + r == q + a + part + (b + r)
  {
  }

  /** Every command written names the program, whatever quoting its path needed. */
  lemma OwnCommandNamed(cfg: Config, kind: Kind)
    requires Contains(cfg.binary, RUNAR)
    ensures Contains(Command(cfg, kind), RUNAR)
  {
    assert QUOTE !in RUNAR;
    var x, y := EscapeKeeps(cfg.binary, RUNAR);
    var tail := Join(QuoteAll(Args(kind, cfg.id)), " ") + " " + LogTail(cfg.log);
    var rest := " " + tail;
    Assoc(ShellQuote(cfg.binary), " ", tail);
    Assoc(x + RUNAR, y, rest);
    OccursInside(x, RUNAR, y + rest);
  }

  lemma EntryShape(cfg: Config, hook: Hook)
    ensures |HooksOf(EntryFor(cfg, hook))| == 1
    ensures var h := HooksOf(EntryFor(cfg, hook))[0];
      CommandOf(h) == Command(cfg, hook.kind) && Get(h, "args") == None
  {
    assert |"matcher"| != |"hooks"| && |"type"| != |"command"|;
    assert "args" != "type" by {
      assert "args"[0] == 'a' && "type"[0] == 't';
    }
    assert |"args"| != |"command"|;
  }

  lemma VerbTokens(white: char -> bool, kind: Kind, i: nat)
    requires Sensible(white) && i < |Verb(kind)|
    ensures Token(white, Verb(kind)[i])
  {
  }

  /** What our commands pass before the id. */
  function Options(kind: Kind): seq<string> {
    Verb(kind) + [SILENT, PROJECT]
  }

  lemma OptionsAreTokens(white: char -> bool, kind: Kind, i: nat)
    requires Sensible(white) && i < |Options(kind)|
    ensures Token(white, Options(kind)[i])
  {
    if i < |Verb(kind)| {
      VerbTokens(white, kind, i);
    }
  }

  lemma QuotedToken(white: char -> bool, w: string)
    requires Sensible(white) && Token(white, w)
    ensures ShellQuote(w) != "" && Solid(ShellQuote(w), white) && Unquote(ShellQuote(w)) == w
  {
    EscapePlain(w);
    QuoteReadBackExactly(w);
    assert ShellQuote(w) == [QUOTE] + w + [QUOTE];
  }

  lemma OptionsReadBack(white: char -> bool, kind: Kind)
    requires Sensible(white)
    ensures SplitWhitespace(Join(QuoteAll(Options(kind)), " "), white) == QuoteAll(Options(kind))
    ensures UnquoteAll(QuoteAll(Options(kind))) == Options(kind)
  {
    var args := Options(kind);
    forall i | 0 <= i < |args|
      ensures QuoteAll(args)[i] != "" && Solid(QuoteAll(args)[i], white) && Unquote(QuoteAll(args)[i]) == args[i]
    {
      OptionsAreTokens(white, kind, i);
      QuotedToken(white, args[i]);
    }
    WordsOfJoin(QuoteAll(args), white);
  }

  const EPILOGUE: seq<string> := [";", "exit", "0"]

  lemma EpilogueWords(white: char -> bool)
    requires Sensible(white)
    ensures SplitWhitespace("; exit 0", white) == EPILOGUE && UnquoteAll(EPILOGUE) == EPILOGUE
    ensures forall w | w in EPILOGUE :: !Detecting(w)
  {
    assert Join(EPILOGUE[1..], " ") == "exit 0";
    assert Join(EPILOGUE, " ") == "; exit 0";
    WordsOfJoin(EPILOGUE, white);
  }

  lemma UnquoteConcat(a: seq<string>, b: seq<string>)
    ensures UnquoteAll(a + b) == UnquoteAll(a) + UnquoteAll(b)
  {
  }

  function Back(white: char -> bool, cfg: Config): seq<string> {
    LogWords(white, cfg) + EPILOGUE
  }

  /** The words a quoted id falls into, unquoted: the id alone, if it is a token. */
  function IdTokens(white: char -> bool, id: string): seq<string> {
    UnquoteAll(SplitWhitespace(ShellQuote(id), white))
  }

  lemma OwnIsRunar(cfg: Config, hook: Hook)
    requires Contains(cfg.binary, RUNAR)
    ensures IsRunar(EntryFor(cfg, hook))
  {
    EntryShape(cfg, hook);
    OwnCommandNamed(cfg, hook.kind);
    var hooks := HooksOf(EntryFor(cfg, hook));
    assert Owned(hooks[0]) && hooks[0] in hooks;
  }

  /** The tokens of an entry of ours, whatever its id. */
  lemma EntryTokens(white: char -> bool, cfg: Config, hook: Hook)
    requires Sensible(white) && Contains(cfg.binary, RUNAR)
    ensures Tokens(white, EntryFor(cfg, hook)) ==
            Front(white, cfg) + Options(hook.kind) + IdTokens(white, cfg.id) + Back(white, cfg)
  {
    EntryShape(cfg, hook);
    OwnCommandNamed(cfg, hook.kind);
    var hooks := HooksOf(EntryFor(cfg, hook));
    assert Owned(hooks[0]);
    CommandRead(white, cfg, hook.kind);
    assert ArgTokens(hooks[0]) == [];
    assert TokensUpTo(white, hooks, 0) == [] && TokensUpTo(white, hooks, 1) == [] + HookTokens(white, hooks[0]);
  }

  /** With a token for an id they are the arguments they were written with. */
  lemma OwnTokens(white: char -> bool, cfg: Config, hook: Hook)
    requires Sensible(white) && Contains(cfg.binary, RUNAR) && Token(white, cfg.id)
    ensures Tokens(white, EntryFor(cfg, hook)) == Front(white, cfg) + Args(hook.kind, cfg.id) + Back(white, cfg)
    ensures IsRunar(EntryFor(cfg, hook))
  {
    OwnIsRunar(cfg, hook);
    EntryTokens(white, cfg, hook);
    TokenAlone(white, cfg.id);
    Assoc(Front(white, cfg), Options(hook.kind), [cfg.id]);
    assert Options(hook.kind) + [cfg.id] == Args(hook.kind, cfg.id);
  }

  lemma TokenAlone(white: char -> bool, id: string)
    requires Sensible(white) && Token(white, id)
    ensures IdTokens(white, id) == [id]
  {
    QuotedToken(white, id);
    OneWord(ShellQuote(id), white);
  }

  lemma ArgsJoined(kind: Kind, id: string)
    ensures Join(QuoteAll(Args(kind, id)), " ") == Join(QuoteAll(Options(kind)), " ") + " " + ShellQuote(id)
  {
    assert QuoteAll(Args(kind, id)) == QuoteAll(Options(kind)) + [ShellQuote(id)];
    JoinSnoc(QuoteAll(Options(kind)), ShellQuote(id), " ");
  }

  lemma CommandRead(white: char -> bool, cfg: Config, kind: Kind)
    requires Sensible(white)
    ensures UnquoteAll(SplitWhitespace(Command(cfg, kind), white)) ==
            Front(white, cfg) + Options(kind) + IdTokens(white, cfg.id) + Back(white, cfg)
  {
    var binary, args, id := ShellQuote(cfg.binary), Join(QuoteAll(Args(kind, cfg.id)), " "), ShellQuote(cfg.id);
    var options, tail := Join(QuoteAll(Options(kind)), " "), LogTail(cfg.log);
    ArgsJoined(kind, cfg.id);
    WordsConcat(binary, args + " " + tail, white);
    WordsConcat(args, tail, white);
    WordsConcat(options, id, white);
    OptionsReadBack(white, kind);
    TailRead(white, cfg);
    var b, o := SplitWhitespace(binary, white), QuoteAll(Options(kind));
    var i, l := SplitWhitespace(id, white), SplitWhitespace(tail, white);
    UnquoteConcat(b, o + i + l);
    UnquoteConcat(o + i, l);
    UnquoteConcat(o, i);
    FourParts(Front(white, cfg), Options(kind), IdTokens(white, cfg.id), Back(white, cfg));
  }

  lemma TailRead(white: char -> bool, cfg: Config)
    requires Sensible(white)
    ensures UnquoteAll(SplitWhitespace(LogTail(cfg.log), white)) == Back(white, cfg)
  {
    var log := "2>>" + ShellQuote(cfg.log);
    WordsConcat(log, "; exit 0", white);
    EpilogueWords(white);
    UnquoteConcat(SplitWhitespace(log, white), EPILOGUE);
  }

  lemma FourParts<T>(a: seq<T>, b: seq<T>, c: seq<T>, d: seq<T>)
    ensures a + (b + c + d) == a + b + c + d
  {
  }

  // ---- The argument form ----

  function AsTexts(words: seq<string>): (items: seq<Json>)
    ensures |items| == |words| && forall i | 0 <= i < |items| :: items[i] == Text(words[i])
  {
    seq(|words|, i requires 0 <= i < |words| => Text(words[i]))
  }

  lemma {:induction false} TextsBack(words: seq<string>)
    ensures Texts(AsTexts(words)) == words
  {
    if words != [] {
      TextsBack(words[1..]);
      assert AsTexts(words)[1..] == AsTexts(words[1..]);
    }
  }

  /** A hook whose arguments are listed instead of written into the command. */
  function ListedHook(binary: string, args: seq<string>): Json {
    Object(map["type" := Text("command"), "command" := Text(binary), "args" := Array(AsTexts(args))])
  }

  lemma ListedParts(binary: string, args: seq<string>)
    ensures CommandOf(ListedHook(binary, args)) == binary
    ensures Items(Get(ListedHook(binary, args), "args")) == AsTexts(args)
  {
    assert |"args"| != |"command"| && |"type"| != |"command"|;
    assert "args" != "type" by {
      assert "args"[0] == 'a' && "type"[0] == 't';
    }
  }

  /** Its tokens are the words of the program's path and its arguments, a blank inside
      an argument notwithstanding. */
  lemma ArgumentFormRead(white: char -> bool, matcher: string, binary: string, args: seq<string>)
    requires Contains(binary, "runar")
    ensures var entry := Object(map["matcher" := Text(matcher), "hooks" := Array([ListedHook(binary, args)])]);
      Tokens(white, entry) == UnquoteAll(SplitWhitespace(binary, white)) + UnquoteAll(args)
  {
    var entry := Object(map["matcher" := Text(matcher), "hooks" := Array([ListedHook(binary, args)])]);
    assert |"matcher"| != |"hooks"|;
    assert HooksOf(entry) == [ListedHook(binary, args)];
    ListedParts(binary, args);
    TextsBack(args);
    OneHook(white, ListedHook(binary, args));
  }

  lemma OneHook(white: char -> bool, h: Json)
    ensures TokensUpTo(white, [h], 1) == HookTokens(white, h)
  {
    assert TokensUpTo(white, [h], 0) == [];
    assert TokensUpTo(white, [h], 1) == [] + HookTokens(white, h);
  }

  /** So an id with blanks inside is read whole from the argument form. */
  lemma ArgumentFormId(white: char -> bool, matcher: string, binary: string, kind: Kind, id: string)
    requires Contains(binary, "runar") && PROJECT !in UnquoteAll(SplitWhitespace(binary, white)) && Edged(id)
    ensures var args := Verb(kind) + ["--silent", "--project", id];
            var entry := Object(map["matcher" := Text(matcher), "hooks" := Array([ListedHook(binary, args)])]);
      IdOfTokens(Tokens(white, entry)) == Some(id)
  {
    var front := UnquoteAll(SplitWhitespace(binary, white));
    ArgumentFormRead(white, matcher, binary, Verb(kind) + [SILENT, PROJECT, id]);
    UnquoteConcat(Verb(kind) + [SILENT], [PROJECT, id]);
    assert Verb(kind) + [SILENT, PROJECT, id] == Verb(kind) + [SILENT] + [PROJECT, id];
    PlainVerbs(kind);
    EdgedUnquoted(PROJECT);
    EdgedUnquoted(id);
    VerbWords(kind);
    assert UnquoteAll([PROJECT, id]) == [PROJECT, id];
    Assoc(front, Verb(kind) + [SILENT], [PROJECT, id]);
    IdSkips(front + (Verb(kind) + [SILENT]), [PROJECT, id]);
    IdFirst(id, []);
    assert [PROJECT, id] + [] == [PROJECT, id];
  }

  lemma EdgedUnquoted(s: string)
    requires Edged(s)
    ensures Unquote(s) == s
  {
    assert TrimStart(s) == s == TrimEnd(s);
  }

  lemma EdgedAll(words: seq<string>)
    requires forall i | 0 <= i < |words| :: Edged(words[i])
    ensures UnquoteAll(words) == words
  {
    forall i | 0 <= i < |words|
      ensures Unquote(words[i]) == words[i]
    {
      EdgedUnquoted(words[i]);
    }
  }

  lemma PlainVerbs(kind: Kind)
    ensures UnquoteAll(Verb(kind) + [SILENT]) == Verb(kind) + [SILENT]
  {
    var words := Verb(kind) + [SILENT];
    SampleToken();
    forall i | 0 <= i < |words|
      ensures Edged(words[i])
    {
      OptionsAreTokens(IsSpace, kind, i);
      assert Options(kind)[i] == words[i];
    }
    EdgedAll(words);
  }

  // ---- Which words an entry of ours holds ----

  /** The verbs the readers look for, each with the kind it stands for. */
  lemma VerbWords(kind: Kind)
    ensures HINT in Verb(kind) <==> kind == Hint
    ensures AUTOREFRESH in Verb(kind) <==> kind == Refresh
    ensures ENQUEUE in Verb(kind) <==> kind == Enqueue
    ensures SUMMARIZE in Verb(kind) <==> kind == Summarize
    ensures PROJECT !in Verb(kind) && PROJECT != SILENT
  {
  }

  lemma OptionWords(w: string)
    requires Detecting(w) && w != PROJECT
    ensures w != SILENT
  {
  }

  /** The words an entry of ours holds beside its verb and options. */
  ghost predicate Spoken(white: char -> bool, cfg: Config, w: string) {
    w in Front(white, cfg) || w in IdTokens(white, cfg.id) || w in LogWords(white, cfg)
  }

  lemma InParts(w: string, a: seq<string>, b: seq<string>, c: seq<string>, d: seq<string>)
    ensures w in a + b + c + d <==> w in a || w in b || w in c || w in d
  {
  }

  lemma OwnHas(white: char -> bool, cfg: Config, hook: Hook, w: string)
    requires Sensible(white) && Contains(cfg.binary, RUNAR) && Detecting(w) && w != PROJECT
    ensures w in Tokens(white, EntryFor(cfg, hook)) <==> w in Verb(hook.kind) || Spoken(white, cfg, w)
  {
    EntryTokens(white, cfg, hook);
    InParts(w, Front(white, cfg), Options(hook.kind), IdTokens(white, cfg.id), Back(white, cfg));
    InOptions(hook.kind, w);
    InBack(white, cfg, w);
  }

  lemma InOptions(kind: Kind, w: string)
    requires Detecting(w) && w != PROJECT
    ensures w in Options(kind) <==> w in Verb(kind)
  {
    OptionWords(w);
  }

  lemma InBack(white: char -> bool, cfg: Config, w: string)
    requires Sensible(white) && Detecting(w)
    ensures w in Back(white, cfg) <==> w in LogWords(white, cfg)
  {
    EpilogueWords(white);
  }

  lemma IdFirst(id: string, rest: seq<string>)
    requires id != ""
    ensures IdOfTokens([PROJECT, id] + rest) == Some(id)
  {
  }

  lemma {:induction false} IdSkips(front: seq<string>, tail: seq<string>)
    requires PROJECT !in front && |tail| >= 2
    ensures IdOfTokens(front + tail) == IdOfTokens(tail)
    decreases |front|
  {
    if front == [] {
      assert front + tail == tail;
    } else {
      assert (front + tail)[1..] == front[1..] + tail;
      IdSkips(front[1..], tail);
    }
  }

  lemma {:induction false} IdIsToken(tokens: seq<string>)
    ensures IdOfTokens(tokens).Some? ==> IdOfTokens(tokens).value in tokens
    decreases |tokens|
  {
    if |tokens| >= 2 {
      IdIsToken(tokens[1..]);
      IdIsToken(tokens[2..]);
    }
  }

  lemma IdOfFirst(white: char -> bool, entries: seq<Json>)
    requires entries != []
    ensures var first := IdOfTokens(Tokens(white, entries[0]));
      IdOfEntries(white, entries) == if first.Some? then first else IdOfEntries(white, entries[1..])
  {
  }

  lemma {:induction false} IdOfSome(white: char -> bool, entries: seq<Json>) returns (k: nat)
    requires IdOfEntries(white, entries).Some?
    ensures k < |entries| && IdOfTokens(Tokens(white, entries[k])) == IdOfEntries(white, entries)
  {
    IdOfFirst(white, entries);
    if IdOfTokens(Tokens(white, entries[0])).Some? {
      k := 0;
    } else {
      var rest := entries[1..];
      var n := IdOfSome(white, rest);
      k := n + 1;
      assert entries[k] == rest[n];
    }
  }

  lemma IdInEntry(white: char -> bool, entries: seq<Json>) returns (k: nat)
    requires IdOfEntries(white, entries).Some?
    ensures k < |entries| && IdOfEntries(white, entries).value in Tokens(white, entries[k])
  {
    k := IdOfSome(white, entries);
    IdIsToken(Tokens(white, entries[k]));
  }

  /** Foreign entries first: they say nothing, then ours say the id. */
  lemma {:induction false} IdAfterForeign(white: char -> bool, foreign: seq<Json>, own: seq<Json>)
    requires forall e | e in foreign :: !IsRunar(e)
    ensures IdOfEntries(white, foreign + own) == IdOfEntries(white, own)
    decreases |foreign|
  {
    if foreign == [] {
      assert foreign + own == own;
    } else {
      var all := foreign + own;
      assert all[1..] == foreign[1..] + own && all[0] == foreign[0] && foreign[0] in foreign;
      ForeignTokens(white, foreign[0]);
      IdAfterForeign(white, foreign[1..], own);
    }
  }

  lemma ForeignTokens(white: char -> bool, entry: Json)
    requires !IsRunar(entry)
    ensures Tokens(white, entry) == []
  {
    ForeignSilent(white, HooksOf(entry), |HooksOf(entry)|);
  }

  // ---- Exactly which ids are read back ----

  lemma {:induction false} TrimStartSolid(w: string, white: char -> bool)
    requires Solid(w, white)
    ensures Solid(TrimStart(w), white)
    decreases |w|
  {
    if w != "" && IsQuote(w[0]) {
      TrimStartSolid(w[1..], white);
    }
  }

  lemma UnquoteSolid(w: string, white: char -> bool)
    requires Solid(w, white)
    ensures Solid(Unquote(w), white)
  {
    TrimStartSolid(w, white);
    TrimEndEdge(TrimStart(w));
  }

  /** A word read off a command line has no white space, and no quote at either end
      unless nothing is left of it. */
  ghost predicate Worn(white: char -> bool, w: string) {
    w == "" || (Edged(w) && Solid(w, white))
  }

  lemma ReadWordsWorn(white: char -> bool, s: string)
    ensures forall w | w in UnquoteAll(SplitWhitespace(s, white)) :: Worn(white, w)
  {
    var words := SplitWhitespace(s, white);
    forall i | 0 <= i < |words|
      ensures Worn(white, Unquote(words[i]))
    {
      SplitWordFree(s, white, words[i]);
      UnquoteSolid(words[i], white);
      UnquoteEdges(words[i]);
    }
  }

  lemma {:induction false} EscapeSolid(s: string, white: char -> bool)
    requires Sensible(white) && Solid(s, white)
    ensures Solid(Escape(s), white)
    decreases |s|
  {
    if s != "" {
      EscapeSolid(s[1..], white);
      assert !white(QUOTE) && !white('\\') && !white(s[0]);
    }
  }

  /** An id with no white space and no quote at its ends is one word, its escaped form. */
  lemma SolidIdTokens(white: char -> bool, id: string)
    requires Sensible(white) && Edged(id) && Solid(id, white)
    ensures IdTokens(white, id) == [Escape(id)] && Escape(id) != ""
  {
    EscapeEdges(id);
    EscapeSolid(id, white);
    TrimNothing(Escape(id));
    assert !white(QUOTE);
    OneWord(ShellQuote(id), white);
  }

  /** What our entries name as their project: the first word of what the id fell
      into, or something that follows. */
  function OwnReads(white: char -> bool, cfg: Config): Option<string> {
    IdOfTokens([PROJECT] + (IdTokens(white, cfg.id) + Back(white, cfg)))
  }

  lemma EntryIdFrom(white: char -> bool, cfg: Config, hook: Hook)
    requires Sensible(white) && Readable(white, cfg)
    ensures IdOfTokens(Tokens(white, EntryFor(cfg, hook))) == OwnReads(white, cfg)
  {
    EntryTokens(white, cfg, hook);
    VerbWords(hook.kind);
    var front, rest := Front(white, cfg) + (Verb(hook.kind) + [SILENT]), IdTokens(white, cfg.id) + Back(white, cfg);
    assert Options(hook.kind) == Verb(hook.kind) + [SILENT] + [PROJECT];
    Rearranged(Front(white, cfg), Verb(hook.kind) + [SILENT], [PROJECT], IdTokens(white, cfg.id), Back(white, cfg));
    assert PROJECT !in front;
    IdSkips(front, [PROJECT] + rest);
  }

  lemma Rearranged<T>(a: seq<T>, b: seq<T>, c: seq<T>, d: seq<T>, e: seq<T>)
    ensures a + (b + c) + d + e == a + b + (c + (d + e))
  {
  }

  /** An entry of ours reads back the project id it was written with if and only if
      the id is not empty, has no white space, no single quote, and no double quote
      at either end. */
  lemma EntryIdExactly(white: char -> bool, cfg: Config, hook: Hook)
    requires Sensible(white) && Readable(white, cfg)
    ensures IdOfTokens(Tokens(white, EntryFor(cfg, hook))) == Some(cfg.id) <==> Token(white, cfg.id)
  {
    EntryIdFrom(white, cfg, hook);
    OwnReadsExactly(white, cfg);
  }

  lemma OwnReadsExactly(white: char -> bool, cfg: Config)
    requires Sensible(white)
    ensures OwnReads(white, cfg) == Some(cfg.id) <==> Token(white, cfg.id)
  {
    var rest := IdTokens(white, cfg.id) + Back(white, cfg);
    if Token(white, cfg.id) {
      TokenAlone(white, cfg.id);
      FirstIsId(cfg.id, Back(white, cfg));
    }
    if IdOfTokens([PROJECT] + rest) == Some(cfg.id) {
      IdIsToken([PROJECT] + rest);
      IdNotEmpty([PROJECT] + rest);
      RestWorn(white, cfg);
      ReadIdPlain(white, cfg.id, Back(white, cfg));
    }
  }

  lemma {:induction false} IdNotEmpty(tokens: seq<string>)
    ensures IdOfTokens(tokens) != Some("")
    decreases |tokens|
  {
    if |tokens| >= 2 {
      IdNotEmpty(tokens[1..]);
      IdNotEmpty(tokens[2..]);
    }
  }

  lemma RestWorn(white: char -> bool, cfg: Config)
    requires Sensible(white)
    ensures forall w | w in [PROJECT] + (IdTokens(white, cfg.id) + Back(white, cfg)) :: Worn(white, w)
  {
    ReadWordsWorn(white, ShellQuote(cfg.id));
    ReadWordsWorn(white, "2>>" + ShellQuote(cfg.log));
    assert forall w | w in EPILOGUE :: Worn(white, w);
    assert Worn(white, PROJECT);
  }

  lemma ReadIdPlain(white: char -> bool, id: string, back: seq<string>)
    requires Sensible(white) && id != "" && Worn(white, id)
    requires IdOfTokens([PROJECT] + (IdTokens(white, id) + back)) == Some(id)
    ensures QUOTE !in id
  {
    SolidIdTokens(white, id);
    EscapePlain(id);
    FirstIsId(Escape(id), back);
  }

  /** An id with a single quote inside is read back longer, and as one that will be
      longer still the next time: every migration renames the project again. */
  lemma QuotedIdRenamed(white: char -> bool, cfg: Config, hook: Hook)
    requires Sensible(white) && Readable(white, cfg)
    requires Edged(cfg.id) && Solid(cfg.id, white) && QUOTE in cfg.id
    ensures IdOfTokens(Tokens(white, EntryFor(cfg, hook))) == Some(Escape(cfg.id))
    ensures |Escape(cfg.id)| > |cfg.id|
    ensures Edged(Escape(cfg.id)) && Solid(Escape(cfg.id), white) && QUOTE in Escape(cfg.id)
  {
    EntryIdFrom(white, cfg, hook);
    SolidIdTokens(white, cfg.id);
    FirstIsId(Escape(cfg.id), Back(white, cfg));
    EscapeGrows(white, cfg.id);
  }

  /** An id that holds a space is read back as its first word, when that is plain. */
  lemma SpacedIdRenamed(white: char -> bool, cfg: Config, hook: Hook, first: string, rest: string)
    requires Sensible(white) && Readable(white, cfg) && Token(white, first)
    requires cfg.id == first + " " + rest
    ensures IdOfTokens(Tokens(white, EntryFor(cfg, hook))) == Some(first)
  {
    var more, back := UnquoteAll(SplitWhitespace(Escape(rest) + [QUOTE], white)), Back(white, cfg);
    EntryIdFrom(white, cfg, hook);
    FirstWord(white, first, rest);
    Assoc([first], more, back);
    FirstIsId(first, more + back);
  }

  lemma FirstWord(white: char -> bool, first: string, rest: string)
    requires Sensible(white) && Token(white, first)
    ensures IdTokens(white, first + " " + rest) ==
            [first] + UnquoteAll(SplitWhitespace(Escape(rest) + [QUOTE], white))
  {
    SpacedEscape(first, rest);
    WordsConcat([QUOTE] + first, Escape(rest) + [QUOTE], white);
    OpeningWord(white, first);
    UnquoteConcat([[QUOTE] + first], SplitWhitespace(Escape(rest) + [QUOTE], white));
  }

  lemma OpeningWord(white: char -> bool, first: string)
    requires Sensible(white) && Token(white, first)
    ensures SplitWhitespace([QUOTE] + first, white) == [[QUOTE] + first]
    ensures UnquoteAll([[QUOTE] + first]) == [first]
  {
    assert !white(QUOTE);
    OneWord([QUOTE] + first, white);
    TrimOpening(first);
  }

  lemma SpacedEscape(first: string, rest: string)
    requires QUOTE !in first
    ensures ShellQuote(first + " " + rest) == [QUOTE] + first + " " + (Escape(rest) + [QUOTE])
  {
    var front := first + " ";
    assert QUOTE !in front;
    EscapeConcat(front, rest);
    EscapePlain(front);
    QuotesAround([QUOTE], first, " ", Escape(rest), [QUOTE]);
  }

  lemma QuotesAround(q: string, a: string, b: string, c: string, r: string)
    ensures q + (a + b + c) + r == q + a + b + (c + r)
  {
  }

  lemma TrimOpening(s: string)
    requires Edged(s)
    ensures Unquote([QUOTE] + s) == s
  {
    assert ([QUOTE] + s)[1..] == s;
    assert TrimStart([QUOTE] + s) == TrimStart(s) == s == TrimEnd(s);
  }

  lemma TrimClosing(s: string)
    requires Edged(s)
    ensures Unquote(s + [QUOTE]) == s
  {
    var t := s + [QUOTE];
    assert t[0] == s[0] && t[|s|] == QUOTE && t[..|s|] == s;
    assert TrimStart(t) == t && TrimEnd(t) == TrimEnd(s) == s;
  }

  lemma FirstIsId(id: string, back: seq<string>)
    requires id != ""
    ensures IdOfTokens([PROJECT] + ([id] + back)) == Some(id)
  {
    assert [PROJECT] + ([id] + back) == [PROJECT, id] + back;
    IdFirst(id, back);
  }

  lemma EscapeGrows(white: char -> bool, id: string)
    requires Sensible(white) && Edged(id) && Solid(id, white) && QUOTE in id
    ensures |Escape(id)| > |id| && Edged(Escape(id)) && Solid(Escape(id), white) && QUOTE in Escape(id)
  {
    EscapePlain(id);
    EscapeEdges(id);
    EscapeSolid(id, white);
    EscapeHasQuote(id);
  }

  lemma {:induction false} EscapeHasQuote(s: string)
    requires QUOTE in s
    ensures QUOTE in Escape(s)
    decreases |s|
  {
    if s[0] != QUOTE {
      assert s == [s[0]] + s[1..];
      EscapeHasQuote(s[1..]);
    }
  }

  // ---- Events after a build ----

  /** Events a build rewrites: all five, but the session end only with auto-capture. */
  predicate Rewritten(cfg: Config, e: Event) {
    e != SessionEnd || cfg.capture
  }

  lemma ItemsBuilt(existing: Json, cfg: Config, hooks: map<string, Json>, e: Event)
    requires IsBuilt(existing, cfg, hooks) && Rewritten(cfg, e)
    ensures Items(Get(Object(hooks), Key(e))) == Wanted(existing, cfg, e)
  {
  }

  /** At a rewritten event every foreign entry survives, in order, whatever the
      project is called: all it takes is that our commands name the program. */
  lemma ForeignSurvives(existing: Json, cfg: Config, hooks: map<string, Json>, e: Event)
    requires Contains(cfg.binary, RUNAR) && IsBuilt(existing, cfg, hooks) && Rewritten(cfg, e)
    ensures FilterRunar(Items(Get(Object(hooks), Key(e)))) == FilterRunar(Items(Get(existing, Key(e))))
  {
    var foreign, own := FilterRunar(Items(Get(existing, Key(e)))), OwnEntries(cfg, e);
    ItemsBuilt(existing, cfg, hooks, e);
    FilterConcat(foreign, own);
    forall entry | entry in foreign
      ensures !IsRunar(entry)
    {
      FilteredForeign(Items(Get(existing, Key(e))), entry);
    }
    FilterForeign(foreign);
    OwnAreOwn(cfg, e);
    FilterOwn(own);
  }

  lemma OwnAreOwn(cfg: Config, e: Event)
    requires Contains(cfg.binary, RUNAR)
    ensures forall entry | entry in OwnEntries(cfg, e) :: IsRunar(entry)
  {
    forall i | 0 <= i < |OwnHooks(cfg, e)|
      ensures IsRunar(EntryFor(cfg, OwnHooks(cfg, e)[i]))
    {
      OwnIsRunar(cfg, OwnHooks(cfg, e)[i]);
    }
  }

  /** Building again from what was built changes nothing. */
  lemma RebuildFixpoint(existing: Json, cfg: Config, once: map<string, Json>, twice: map<string, Json>)
    requires Contains(cfg.binary, RUNAR)
    requires IsBuilt(existing, cfg, once) && IsBuilt(Object(once), cfg, twice)
    ensures twice == once
  {
    forall e: Event | Rewritten(cfg, e)
      ensures Wanted(Object(once), cfg, e) == Wanted(existing, cfg, e)
    {
      ForeignSurvives(existing, cfg, once, e);
    }
    forall key
      ensures SameAt(once, twice, key)
    {
      SameKey(existing, cfg, once, twice, key);
    }
    SameMaps(once, twice);
  }

  lemma SameKey(existing: Json, cfg: Config, once: map<string, Json>, twice: map<string, Json>, key: string)
    requires IsBuilt(existing, cfg, once) && IsBuilt(Object(once), cfg, twice)
    requires forall e: Event | Rewritten(cfg, e) :: Wanted(Object(once), cfg, e) == Wanted(existing, cfg, e)
    ensures SameAt(once, twice, key)
  {
    if Managed(key) {
      var e: Event :| key == Key(e);
      assert Rewritten(cfg, e) ==> Wanted(Object(once), cfg, e) == Wanted(existing, cfg, e);
    }
  }

  lemma SameMaps(a: map<string, Json>, b: map<string, Json>)
    requires forall key :: SameAt(a, b, key)
    ensures a == b
  {
    assert forall key :: SameAt(a, b, key) ==> (key in a <==> key in b);
    assert a.Keys == b.Keys;
    forall key | key in a
      ensures a[key] == b[key]
    {
      assert SameAt(a, b, key);
    }
  }

  // ---- What is written, spelled out ----

  /** `kept` are the entries at these places, which are all that hold no command of ours. */
  ghost predicate KeptAt(entries: seq<Json>, kept: seq<Json>, at: seq<nat>) {
    && |at| == |kept|
    && (forall k | 0 <= k < |at| :: at[k] < |entries| && kept[k] == entries[at[k]])
    && (forall k, l | 0 <= k < l < |at| :: at[k] < at[l])
    && forall i: nat | i < |entries| :: i in at <==> !IsRunar(entries[i])
  }

  lemma FilterOne(entry: Json)
    ensures FilterRunar([entry]) == if IsRunar(entry) then [] else [entry]
  {
    assert [entry][1..] == [];
  }

  /** Exactly the entries without a command of ours are kept, in order. */
  lemma {:induction false} FilterExactly(entries: seq<Json>) returns (at: seq<nat>)
    ensures KeptAt(entries, FilterRunar(entries), at)
    decreases |entries|
  {
    at := [];
    if entries != [] {
      var n, last := |entries| - 1, entries[|entries| - 1];
      var front := entries[..n];
      at := FilterExactly(front);
      assert entries == front + [last];
      FilterConcat(front, [last]);
      FilterOne(last);
      if IsRunar(last) {
        assert FilterRunar(front) + [] == FilterRunar(front);
      } else {
        KeptMore(front, FilterRunar(front), at, last);
        at := at + [n];
      }
    }
  }

  lemma KeptMore(front: seq<Json>, kept: seq<Json>, at: seq<nat>, last: Json)
    requires KeptAt(front, kept, at) && !IsRunar(last)
    ensures KeptAt(front + [last], kept + [last], at + [|front|])
  {
  }

  /** What makes an entry ours. */
  lemma RunarExactly(entry: Json)
    ensures IsRunar(entry) <==> exists h | h in HooksOf(entry) :: Contains(CommandOf(h), "runar")
  {
  }

  /** A word in single quotes. */
  function Quoted(word: string): string {
    "'" + word + "'"
  }

  /** One entry, with the quoted verbs of its command: it runs the program for this
      project, sends what goes wrong to the log, and never fails. */
  function Spelled(cfg: Config, matcher: string, verbs: string): Json {
    Object(map[
      "matcher" := Text(matcher),
      "hooks" := Array([Object(map[
        "type" := Text("command"),
        "command" := Text(ShellQuote(cfg.binary) + " " + verbs + " " + Quoted(SILENT) + " " + Quoted(PROJECT) +
                          " " + ShellQuote(cfg.id) + " " + "2>>" + ShellQuote(cfg.log) + " " + "; exit 0")])])])
  }

  lemma QuotedPlain(word: string)
    requires QUOTE !in word
    ensures ShellQuote(word) == Quoted(word)
  {
    EscapePlain(word);
    assert [QUOTE] == "'";
  }

  lemma QuoteConcat(a: seq<string>, b: seq<string>)
    ensures QuoteAll(a + b) == QuoteAll(a) + QuoteAll(b)
  {
  }

  lemma OptionsSpelled(verb: seq<string>, a: string, b: string)
    requires verb != []
    ensures Join(QuoteAll(verb + [a, b]), " ") == Join(QuoteAll(verb), " ") + " " + ShellQuote(a) + " " + ShellQuote(b)
  {
    var v := QuoteAll(verb);
    QuoteConcat(verb, [a, b]);
    JoinSnoc(v, ShellQuote(a), " ");
    JoinSnoc(v + [ShellQuote(a)], ShellQuote(b), " ");
    assert v + QuoteAll([a, b]) == v + [ShellQuote(a)] + [ShellQuote(b)];
  }

  lemma EntrySpelled(cfg: Config, kind: Kind, matcher: string, verbs: string, silent: string, project: string)
    requires Join(QuoteAll(Verb(kind)), " ") == verbs && silent == ShellQuote(SILENT) && project == ShellQuote(PROJECT)
    ensures Command(cfg, kind) == ShellQuote(cfg.binary) + " " + verbs + " " + silent + " " + project + " " +
              ShellQuote(cfg.id) + " " + "2>>" + ShellQuote(cfg.log) + " " + "; exit 0"
  {
    ArgsJoined(kind, cfg.id);
    OptionsSpelled(Verb(kind), SILENT, PROJECT);
    CommandText(ShellQuote(cfg.binary), verbs, silent, project, ShellQuote(cfg.id), ShellQuote(cfg.log),
                "2>>", "; exit 0");
  }

  lemma CommandText(binary: string, verbs: string, silent: string, project: string, id: string, log: string,
                    to: string, end: string)
    ensures binary + " " + (verbs + " " + silent + " " + project + " " + id + " " + (to + log + " " + end)) ==
            binary + " " + verbs + " " + silent + " " + project + " " + id + " " + to + log + " " + end
  {
  }

  lemma QuoteTwo(a: string, b: string)
    ensures QuoteAll([a, b]) == [ShellQuote(a), ShellQuote(b)]
  {
  }

  lemma JoinTwo(x: string, y: string)
    ensures Join([x, y], " ") == x + " " + y
  {
    assert [x, y][1..] == [y];
  }

  lemma SpelledOne(cfg: Config, kind: Kind, matcher: string, word: string)
    requires Verb(kind) == [word] && QUOTE !in word
    ensures EntryFor(cfg, Hook(kind, matcher)) == Spelled(cfg, matcher, Quoted(word))
  {
    QuotedPlain(word);
    assert QuoteAll([word]) == [Quoted(word)];
    PlainOptions();
    EntrySpelled(cfg, kind, matcher, Quoted(word), Quoted(SILENT), Quoted(PROJECT));
  }

  lemma SpelledTwo(cfg: Config, kind: Kind, matcher: string, first: string, second: string)
    requires Verb(kind) == [first, second] && QUOTE !in first && QUOTE !in second
    ensures EntryFor(cfg, Hook(kind, matcher)) == Spelled(cfg, matcher, Quoted(first) + " " + Quoted(second))
  {
    QuotedPlain(first);
    QuotedPlain(second);
    QuoteTwo(first, second);
    JoinTwo(Quoted(first), Quoted(second));
    PlainOptions();
    EntrySpelled(cfg, kind, matcher, Quoted(first) + " " + Quoted(second), Quoted(SILENT), Quoted(PROJECT));
  }

  lemma PlainOptions()
    ensures ShellQuote(SILENT) == Quoted(SILENT) && ShellQuote(PROJECT) == Quoted(PROJECT)
  {
    QuotedPlain(SILENT);
    QuotedPlain(PROJECT);
  }

  /** Which command each kind of hook runs. */
  function Verbs(kind: Kind): string {
    match kind
    case Hint => Quoted("hint")
    case Context => Quoted("context")
    case Refresh => Quoted("graph") + " " + Quoted("autorefresh")
    case Ping => Quoted("session") + " " + Quoted("ping")
    case SaveAck => Quoted("save-ack")
    case Extract => Quoted("extract")
    case Enqueue => Quoted("enqueue")
    case Nudge => Quoted("nudge")
    case Summarize => Quoted("summarize")
  }

  lemma KindSpelled(cfg: Config, kind: Kind, matcher: string)
    ensures EntryFor(cfg, Hook(kind, matcher)) == Spelled(cfg, matcher, Verbs(kind))
  {
    match kind
    case Hint => SpelledOne(cfg, kind, matcher, "hint");
    case Context => SpelledOne(cfg, kind, matcher, "context");
    case Refresh => SpelledTwo(cfg, kind, matcher, "graph", "autorefresh");
    case Ping => SpelledTwo(cfg, kind, matcher, "session", "ping");
    case SaveAck => SpelledOne(cfg, kind, matcher, "save-ack");
    case Extract => SpelledOne(cfg, kind, matcher, "extract");
    case Enqueue => SpelledOne(cfg, kind, matcher, "enqueue");
    case Nudge => SpelledOne(cfg, kind, matcher, "nudge");
    case Summarize => SpelledOne(cfg, kind, matcher, "summarize");
  }

  /** After edits: a ping and an extraction, an acknowledgement of saves, and if asked
      for, the capture queue and the graph's refresh. */
  lemma PostWrites(existing: Json, cfg: Config, hooks: map<string, Json>)
    requires IsBuilt(existing, cfg, hooks)
    ensures Items(Get(Object(hooks), POST)) ==
      FilterRunar(Items(Get(existing, POST))) +
      ([Spelled(cfg, EDITS, Verbs(Ping)), Spelled(cfg, SAVES, Verbs(SaveAck)),
        Spelled(cfg, EDITS_AND_BASH, Verbs(Extract))] +
       (if cfg.capture then [Spelled(cfg, EDITS_AND_BASH, Verbs(Enqueue))] else []) +
       (if cfg.refresh then [Spelled(cfg, EDITS, Verbs(Refresh))] else []))
  {
    KindSpelled(cfg, Ping, EDITS);
    KindSpelled(cfg, SaveAck, SAVES);
    KindSpelled(cfg, Extract, EDITS_AND_BASH);
    KindSpelled(cfg, Enqueue, EDITS_AND_BASH);
    KindSpelled(cfg, Refresh, EDITS);
    PostEntries(cfg, Spelled(cfg, EDITS, Verbs(Ping)), Spelled(cfg, SAVES, Verbs(SaveAck)),
                Spelled(cfg, EDITS_AND_BASH, Verbs(Extract)), Spelled(cfg, EDITS_AND_BASH, Verbs(Enqueue)),
                Spelled(cfg, EDITS, Verbs(Refresh)));
    ItemsBuilt(existing, cfg, hooks, PostTool);
  }

  lemma PostEntries(cfg: Config, ping: Json, ack: Json, extract: Json, enqueue: Json, refresh: Json)
    requires ping == EntryFor(cfg, Hook(Ping, EDITS)) && ack == EntryFor(cfg, Hook(SaveAck, SAVES))
    requires extract == EntryFor(cfg, Hook(Extract, EDITS_AND_BASH))
    requires enqueue == EntryFor(cfg, Hook(Enqueue, EDITS_AND_BASH)) && refresh == EntryFor(cfg, Hook(Refresh, EDITS))
    ensures OwnEntries(cfg, PostTool) ==
      [ping, ack, extract] + (if cfg.capture then [enqueue] else []) + (if cfg.refresh then [refresh] else [])
  {
    FiveEntries(cfg, Hook(Ping, EDITS), Hook(SaveAck, SAVES), Hook(Extract, EDITS_AND_BASH),
                Hook(Enqueue, EDITS_AND_BASH), Hook(Refresh, EDITS), cfg.capture, cfg.refresh);
  }

  lemma FiveEntries(cfg: Config, a: Hook, b: Hook, c: Hook, d: Hook, e: Hook, fourth: bool, fifth: bool)
    ensures EntriesFor(cfg, [a, b, c] + (if fourth then [d] else []) + (if fifth then [e] else [])) ==
      [EntryFor(cfg, a), EntryFor(cfg, b), EntryFor(cfg, c)] +
      (if fourth then [EntryFor(cfg, d)] else []) + (if fifth then [EntryFor(cfg, e)] else [])
  {
    OneMoreEntry(cfg, [a, b, c] + (if fourth then [d] else []), e, fifth);
    OneMoreEntry(cfg, [a, b, c], d, fourth);
    assert EntriesFor(cfg, [a, b, c]) == [EntryFor(cfg, a), EntryFor(cfg, b), EntryFor(cfg, c)];
  }

  /** When a session starts: the context, and if asked for, the graph's refresh. */
  lemma StartWrites(existing: Json, cfg: Config, hooks: map<string, Json>)
    requires IsBuilt(existing, cfg, hooks)
    ensures Items(Get(Object(hooks), START)) ==
      FilterRunar(Items(Get(existing, START))) +
      ([Spelled(cfg, ANY, Verbs(Context))] + (if cfg.refresh then [Spelled(cfg, ANY, Verbs(Refresh))] else []))
  {
    KindSpelled(cfg, Context, ANY);
    KindSpelled(cfg, Refresh, ANY);
    StartEntries(cfg, Spelled(cfg, ANY, Verbs(Context)), Spelled(cfg, ANY, Verbs(Refresh)));
    ItemsBuilt(existing, cfg, hooks, SessionStart);
  }

  lemma StartEntries(cfg: Config, context: Json, refresh: Json)
    requires context == EntryFor(cfg, Hook(Context, ANY)) && refresh == EntryFor(cfg, Hook(Refresh, ANY))
    ensures OwnEntries(cfg, SessionStart) == [context] + (if cfg.refresh then [refresh] else [])
  {
    OneMoreEntry(cfg, [Hook(Context, ANY)], Hook(Refresh, ANY), cfg.refresh);
    OneEntry(cfg, Hook(Context, ANY));
  }

  lemma OneEntry(cfg: Config, hook: Hook)
    ensures EntriesFor(cfg, [hook]) == [EntryFor(cfg, hook)]
  {
  }

  lemma OneMoreEntry(cfg: Config, hooks: seq<Hook>, hook: Hook, asked: bool)
    ensures EntriesFor(cfg, hooks + (if asked then [hook] else [])) ==
            EntriesFor(cfg, hooks) + (if asked then [EntryFor(cfg, hook)] else [])
  {
  }

  /** On every prompt, a nudge. */
  lemma PromptWrites(existing: Json, cfg: Config, hooks: map<string, Json>)
    requires IsBuilt(existing, cfg, hooks)
    ensures Items(Get(Object(hooks), PROMPT)) ==
      FilterRunar(Items(Get(existing, PROMPT))) + [Spelled(cfg, ANY, Verbs(Nudge))]
  {
    ItemsBuilt(existing, cfg, hooks, UserPrompt);
    KindSpelled(cfg, Nudge, ANY);
    assert OwnEntries(cfg, UserPrompt) == [EntryFor(cfg, Hook(Nudge, ANY))];
  }

  /** Before a search, a hint, if asked for. */
  lemma ToolWrites(existing: Json, cfg: Config, hooks: map<string, Json>)
    requires IsBuilt(existing, cfg, hooks)
    ensures Items(Get(Object(hooks), PRE)) ==
      FilterRunar(Items(Get(existing, PRE))) + (if cfg.hints then [Spelled(cfg, SEARCHES, Verbs(Hint))] else [])
  {
    ItemsBuilt(existing, cfg, hooks, PreTool);
    KindSpelled(cfg, Hint, SEARCHES);
    assert OwnEntries(cfg, PreTool) == if cfg.hints then [EntryFor(cfg, Hook(Hint, SEARCHES))] else [];
  }

  /** When a session ends, a summary, if asked for. */
  lemma EndWrites(existing: Json, cfg: Config, hooks: map<string, Json>)
    requires IsBuilt(existing, cfg, hooks)
    ensures Items(Get(Object(hooks), END)) ==
      if cfg.capture then FilterRunar(Items(Get(existing, END))) + [Spelled(cfg, ANY, Verbs(Summarize))]
      else Items(Get(existing, END))
  {
    if cfg.capture {
      ItemsBuilt(existing, cfg, hooks, SessionEnd);
      KindSpelled(cfg, Summarize, ANY);
      assert OwnEntries(cfg, SessionEnd) == [EntryFor(cfg, Hook(Summarize, ANY))];
    } else {
      assert SameAt(Fields(existing), hooks, END);
    }
  }

  // ---- Flags and id read back ----

  /** Ours at some rewritten event carry the word as their verb. */
  ghost predicate Asked(cfg: Config, w: string) {
    exists e: Event, i | 0 <= i < |OwnHooks(cfg, e)| :: Rewritten(cfg, e) && w in Verb(OwnHooks(cfg, e)[i].kind)
  }

  /** Events the build leaves alone. */
  ghost predicate LeftAlone(cfg: Config, key: string) {
    !Managed(key) || (key == END && !cfg.capture)
  }

  /** Entries the build leaves alone carry the word. */
  ghost predicate Leftover(white: char -> bool, existing: Json, cfg: Config, w: string) {
    exists key | key in Fields(existing) :: LeftAlone(cfg, key) && EventHas(white, existing, key, w)
  }

  /** Ours at this event are there and hold the word. */
  ghost predicate Answers(white: char -> bool, cfg: Config, e: Event, w: string) {
    exists i | 0 <= i < |OwnHooks(cfg, e)| :: w in Verb(OwnHooks(cfg, e)[i].kind) || Spoken(white, cfg, w)
  }

  predicate SomeHas(white: char -> bool, entries: seq<Json>, w: string) {
    exists entry | entry in entries :: w in Tokens(white, entry)
  }

  lemma ForeignHasNot(white: char -> bool, entries: seq<Json>, w: string)
    ensures !SomeHas(white, FilterRunar(entries), w)
  {
    forall entry | entry in FilterRunar(entries)
      ensures w !in Tokens(white, entry)
    {
      FilteredForeign(entries, entry);
      ForeignTokens(white, entry);
    }
  }

  lemma OwnEntriesHave(white: char -> bool, cfg: Config, e: Event, w: string)
    requires Sensible(white) && Contains(cfg.binary, RUNAR) && Detecting(w) && w != PROJECT
    ensures SomeHas(white, OwnEntries(cfg, e), w) <==> Answers(white, cfg, e, w)
  {
    var own := OwnEntries(cfg, e);
    forall i | 0 <= i < |own|
      ensures w in Tokens(white, own[i]) <==> w in Verb(OwnHooks(cfg, e)[i].kind) || Spoken(white, cfg, w)
      ensures own[i] in own
    {
      OwnHas(white, cfg, OwnHooks(cfg, e)[i], w);
    }
  }

  lemma SomeHasConcat(white: char -> bool, a: seq<Json>, b: seq<Json>, w: string)
    ensures SomeHas(white, a + b, w) <==> SomeHas(white, a, w) || SomeHas(white, b, w)
  {
    assert forall entry :: entry in a + b <==> entry in a || entry in b;
  }

  lemma RewrittenHas(white: char -> bool, existing: Json, cfg: Config, hooks: map<string, Json>, e: Event, w: string)
    requires Sensible(white) && Contains(cfg.binary, RUNAR) && Detecting(w) && w != PROJECT
    requires IsBuilt(existing, cfg, hooks) && Rewritten(cfg, e)
    ensures EventHas(white, Object(hooks), Key(e), w) <==> Answers(white, cfg, e, w)
  {
    ItemsBuilt(existing, cfg, hooks, e);
    ForeignHasNot(white, Items(Get(existing, Key(e))), w);
    OwnEntriesHave(white, cfg, e, w);
    SomeHasConcat(white, FilterRunar(Items(Get(existing, Key(e)))), OwnEntries(cfg, e), w);
  }

  /** A word the readers look for is found after a build exactly when this build
      asked for it, the project id or one of the two paths falls into words of which it
      is one, or an entry left alone has it. */
  lemma FoundExactly(white: char -> bool, existing: Json, cfg: Config, hooks: map<string, Json>, w: string)
    requires Sensible(white) && Contains(cfg.binary, RUNAR) && Detecting(w) && w != PROJECT
    requires IsBuilt(existing, cfg, hooks)
    ensures AnyEventHas(white, Object(hooks), w) <==>
            Asked(cfg, w) || Spoken(white, cfg, w) || Leftover(white, existing, cfg, w)
  {
    forall e: Event | Rewritten(cfg, e)
      ensures EventHas(white, Object(hooks), Key(e), w) <==> Answers(white, cfg, e, w)
    {
      RewrittenHas(white, existing, cfg, hooks, e, w);
    }
    if AnyEventHas(white, Object(hooks), w) {
      FoundMeans(white, existing, cfg, hooks, w);
    }
    if Asked(cfg, w) || Spoken(white, cfg, w) {
      AskedIsFound(white, cfg, hooks, w);
    }
    if Leftover(white, existing, cfg, w) {
      LeftoverIsFound(white, existing, cfg, hooks, w);
    }
  }

  lemma AskedIsFound(white: char -> bool, cfg: Config, hooks: map<string, Json>, w: string)
    requires forall e: Event | Rewritten(cfg, e) ::
               Answers(white, cfg, e, w) ==> EventHas(white, Object(hooks), Key(e), w)
    requires Asked(cfg, w) || Spoken(white, cfg, w)
    ensures AnyEventHas(white, Object(hooks), w)
  {
    var e := UserPrompt;
    if Asked(cfg, w) {
      var f: Event, i :| 0 <= i < |OwnHooks(cfg, f)| && Rewritten(cfg, f) && w in Verb(OwnHooks(cfg, f)[i].kind);
      e := f;
    } else {
      assert OwnHooks(cfg, e)[0] == Hook(Nudge, ANY);
    }
    assert Answers(white, cfg, e, w);
    PresentKey(white, Object(hooks), Key(e), w);
  }

  lemma LeftoverIsFound(white: char -> bool, existing: Json, cfg: Config, hooks: map<string, Json>, w: string)
    requires IsBuilt(existing, cfg, hooks) && Leftover(white, existing, cfg, w)
    ensures AnyEventHas(white, Object(hooks), w)
  {
    var key :| key in Fields(existing) && LeftAlone(cfg, key) && EventHas(white, existing, key, w);
    assert SameAt(Fields(existing), hooks, key);
    assert EventHas(white, Object(hooks), key, w);
  }

  lemma PresentKey(white: char -> bool, v: Json, key: string, w: string)
    requires EventHas(white, v, key, w)
    ensures AnyEventHas(white, v, w)
  {
    assert key in Fields(v);
  }

  lemma FoundMeans(white: char -> bool, existing: Json, cfg: Config, hooks: map<string, Json>, w: string)
    requires IsBuilt(existing, cfg, hooks) && AnyEventHas(white, Object(hooks), w)
    requires forall e: Event | Rewritten(cfg, e) ::
               EventHas(white, Object(hooks), Key(e), w) ==> Answers(white, cfg, e, w)
    ensures Asked(cfg, w) || Spoken(white, cfg, w) || Leftover(white, existing, cfg, w)
  {
    var key :| key in hooks && EventHas(white, Object(hooks), key, w);
    if e: Event :| key == Key(e) && Rewritten(cfg, e) {
      assert EventHas(white, Object(hooks), Key(e), w);
    } else {
      if Managed(key) {
        var e: Event :| key == Key(e);
        assert !Rewritten(cfg, e);
      }
      assert SameAt(Fields(existing), hooks, key);
      assert EventHas(white, existing, key, w);
    }
  }

  lemma AskedRefresh(cfg: Config)
    ensures Asked(cfg, AUTOREFRESH) <==> cfg.refresh
  {
    forall kind
      ensures AUTOREFRESH in Verb(kind) <==> kind == Refresh
    {
      VerbWords(kind);
    }
    if cfg.refresh {
      assert OwnHooks(cfg, SessionStart)[1].kind == Refresh;
    }
  }

  lemma AskedCapture(cfg: Config)
    ensures Asked(cfg, ENQUEUE) || Asked(cfg, SUMMARIZE) <==> cfg.capture
  {
    forall kind
      ensures ENQUEUE in Verb(kind) <==> kind == Enqueue
      ensures SUMMARIZE in Verb(kind) <==> kind == Summarize
    {
      VerbWords(kind);
    }
    if cfg.capture {
      assert OwnHooks(cfg, SessionEnd)[0].kind == Summarize;
    }
  }

  /** The flags read back after a build. The search hint always reads as written;
      the other two read as written exactly when it is on, or neither the project id
      nor the paths hold one of its verbs and no entry left alone carries one. */
  lemma FlagsReadBackExactly(white: char -> bool, existing: Json, cfg: Config, hooks: map<string, Json>)
    requires Sensible(white) && Contains(cfg.binary, RUNAR) && IsBuilt(existing, cfg, hooks)
    ensures InstalledSearchHints(white, Object(hooks)) <==> cfg.hints
    ensures InstalledGraphAutorefresh(white, Object(hooks)) <==>
            cfg.refresh || Spoken(white, cfg, AUTOREFRESH) || Leftover(white, existing, cfg, AUTOREFRESH)
    ensures InstalledAutoCapture(white, Object(hooks)) <==>
            cfg.capture || Spoken(white, cfg, ENQUEUE) || Spoken(white, cfg, SUMMARIZE) ||
            Leftover(white, existing, cfg, ENQUEUE) || Leftover(white, existing, cfg, SUMMARIZE)
  {
    RewrittenHas(white, existing, cfg, hooks, PreTool, HINT);
    if cfg.hints {
      assert OwnHooks(cfg, PreTool)[0].kind == Hint;
      VerbWords(Hint);
    }
    AskedRefresh(cfg);
    AskedCapture(cfg);
    FoundExactly(white, existing, cfg, hooks, AUTOREFRESH);
    FoundExactly(white, existing, cfg, hooks, ENQUEUE);
    FoundExactly(white, existing, cfg, hooks, SUMMARIZE);
  }

  /** The tool event comes first of the five in text order. */
  lemma PostIsFirst(key: string)
    requires Managed(key)
    ensures !Before(key, POST)
  {
    var e: Event :| key == Key(e);
    match e
    case PreTool => LaterSecond(PRE, POST);
    case PostTool => BeforeIrreflexive(POST);
    case UserPrompt => LaterFirst(PROMPT, POST);
    case SessionStart => LaterFirst(START, POST);
    case SessionEnd => LaterFirst(END, POST);
  }

  lemma LaterFirst(a: string, b: string)
    requires a != "" && b != "" && a[0] > b[0]
    ensures !Before(a, b)
  {
  }

  lemma LaterSecond(a: string, b: string)
    requires |a| > 1 && |b| > 1 && a[0] == b[0] && a[1] > b[1]
    ensures !Before(a, b)
  {
    LaterFirst(a[1..], b[1..]);
  }

  /** At a rewritten event ours alone name a project. */
  lemma RewrittenId(white: char -> bool, existing: Json, cfg: Config, hooks: map<string, Json>, e: Event)
    requires Sensible(white) && Readable(white, cfg) && IsBuilt(existing, cfg, hooks) && Rewritten(cfg, e)
    ensures IdOfEvent(white, Object(hooks), Key(e)) ==
            if OwnHooks(cfg, e) == [] then None else OwnReads(white, cfg)
  {
    var foreign, own := FilterRunar(Items(Get(existing, Key(e)))), OwnEntries(cfg, e);
    ItemsBuilt(existing, cfg, hooks, e);
    forall entry | entry in foreign
      ensures !IsRunar(entry)
    {
      FilteredForeign(Items(Get(existing, Key(e))), entry);
    }
    IdAfterForeign(white, foreign, own);
    forall i | 0 <= i < |own|
      ensures IdOfTokens(Tokens(white, own[i])) == OwnReads(white, cfg)
    {
      EntryIdFrom(white, cfg, OwnHooks(cfg, e)[i]);
    }
    SameIds(white, own, OwnReads(white, cfg));
  }

  lemma {:induction false} SameIds(white: char -> bool, entries: seq<Json>, id: Option<string>)
    requires forall i | 0 <= i < |entries| :: IdOfTokens(Tokens(white, entries[i])) == id
    ensures IdOfEntries(white, entries) == if entries == [] then None else id
  {
    if entries != [] {
      var rest := entries[1..];
      assert forall i | 0 <= i < |rest| :: rest[i] == entries[i + 1];
      SameIds(white, rest, id);
    }
  }

  lemma LeftId(white: char -> bool, existing: Json, cfg: Config, hooks: map<string, Json>, key: string)
    requires IsBuilt(existing, cfg, hooks) && LeftAlone(cfg, key)
    ensures SameAt(Fields(existing), hooks, key)
    ensures IdOfEvent(white, Object(hooks), key) == IdOfEvent(white, existing, key)
  {
    assert SameAt(Fields(existing), hooks, key);
  }

  /** An event is left alone or one of the five rewritten; those that come before the
      tool event are left alone. */
  lemma LeftOrRewritten(cfg: Config, key: string)
    ensures LeftAlone(cfg, key) || exists e: Event :: key == Key(e) && Rewritten(cfg, e)
    ensures Before(key, POST) ==> LeftAlone(cfg, key)
    ensures !LeftAlone(cfg, key) && key != POST ==> Before(POST, key)
  {
    if Managed(key) {
      var e: Event :| key == Key(e);
      assert e != SessionEnd ==> Rewritten(cfg, e);
      PostIsFirst(key);
      if key != POST {
        BeforeTotal(key, POST);
      }
    }
  }

  /** The first of the events left alone to name a project names this one. */
  ghost predicate FirstLeft(white: char -> bool, existing: Json, cfg: Config, key: string, id: string) {
    && key in Fields(existing) && LeftAlone(cfg, key) && IdOfEvent(white, existing, key) == Some(id)
    && forall other | other in Fields(existing) && LeftAlone(cfg, other) && Before(other, key) ::
      IdOfEvent(white, existing, other) == None
  }

  /** An event left alone is read for its id: before ours, or because ours have none. */
  ghost predicate ReadsLeft(white: char -> bool, existing: Json, cfg: Config, id: string) {
    exists key :: FirstLeft(white, existing, cfg, key, id) && (Before(key, POST) || OwnReads(white, cfg) == None)
  }

  /** No event before ours names a project. */
  ghost predicate NoneBefore(white: char -> bool, existing: Json) {
    forall key | key in Fields(existing) && Before(key, POST) :: IdOfEvent(white, existing, key) == None
  }

  /** Which id a build reads back: the one left alone before ours; else what ours name;
      else the first one left alone. */
  lemma IdReadExactly(white: char -> bool, existing: Json, cfg: Config, hooks: map<string, Json>, id: string)
    requires Sensible(white) && Readable(white, cfg) && IsBuilt(existing, cfg, hooks)
    ensures ReadsId(white, Object(hooks), Some(id)) <==>
            ReadsLeft(white, existing, cfg, id) || (OwnReads(white, cfg) == Some(id) && NoneBefore(white, existing))
  {
    if ReadsId(white, Object(hooks), Some(id)) {
      ReadMeans(white, existing, cfg, hooks, id);
    }
    if ReadsLeft(white, existing, cfg, id) {
      LeftIsRead(white, existing, cfg, hooks, id);
    }
    if OwnReads(white, cfg) == Some(id) && NoneBefore(white, existing) {
      OwnIsRead(white, existing, cfg, hooks, id);
    }
  }

  lemma ReadMeans(white: char -> bool, existing: Json, cfg: Config, hooks: map<string, Json>, id: string)
    requires Sensible(white) && Readable(white, cfg) && IsBuilt(existing, cfg, hooks)
    requires ReadsId(white, Object(hooks), Some(id))
    ensures ReadsLeft(white, existing, cfg, id) || (OwnReads(white, cfg) == Some(id) && NoneBefore(white, existing))
  {
    var key :| key in hooks && IsFirstId(white, Object(hooks), key, Some(id));
    PostWritten(white, existing, cfg, hooks);
    NothingEarlier(white, existing, cfg, hooks, key);
    LeftOrRewritten(cfg, key);
    if LeftAlone(cfg, key) {
      LeftId(white, existing, cfg, hooks, key);
      assert FirstLeft(white, existing, cfg, key, id);
      if !Before(key, POST) {
        PostIsOurs(cfg);
        BeforeTotal(key, POST);
      }
    } else {
      var e: Event :| key == Key(e) && Rewritten(cfg, e);
      RewrittenId(white, existing, cfg, hooks, e);
      assert key == POST;
    }
  }

  lemma PostIsOurs(cfg: Config)
    ensures !LeftAlone(cfg, POST)
  {
    assert POST == Key(PostTool) && POST[0] != END[0];
  }

  lemma PostWritten(white: char -> bool, existing: Json, cfg: Config, hooks: map<string, Json>)
    requires Sensible(white) && Readable(white, cfg) && IsBuilt(existing, cfg, hooks)
    ensures POST in hooks && IdOfEvent(white, Object(hooks), POST) == OwnReads(white, cfg)
  {
    assert Holds(hooks, Key(PostTool), Wanted(existing, cfg, PostTool));
    RewrittenId(white, existing, cfg, hooks, PostTool);
  }

  /** Events left alone before the one read name no project. */
  lemma NothingEarlier(white: char -> bool, existing: Json, cfg: Config, hooks: map<string, Json>, key: string)
    requires IsBuilt(existing, cfg, hooks)
    requires forall other | other in hooks && Before(other, key) :: IdOfEvent(white, Object(hooks), other) == None
    ensures forall other | other in Fields(existing) && LeftAlone(cfg, other) && Before(other, key) ::
              IdOfEvent(white, existing, other) == None
    ensures key == POST ==> NoneBefore(white, existing)
  {
    forall other | other in Fields(existing) && LeftAlone(cfg, other) && Before(other, key)
      ensures IdOfEvent(white, existing, other) == None
    {
      LeftId(white, existing, cfg, hooks, other);
    }
    if key == POST {
      forall other | other in Fields(existing) && Before(other, POST)
        ensures IdOfEvent(white, existing, other) == None
      {
        LeftOrRewritten(cfg, other);
      }
    }
  }

  lemma LeftIsRead(white: char -> bool, existing: Json, cfg: Config, hooks: map<string, Json>, id: string)
    requires Sensible(white) && Readable(white, cfg) && IsBuilt(existing, cfg, hooks)
    requires ReadsLeft(white, existing, cfg, id)
    ensures ReadsId(white, Object(hooks), Some(id))
  {
    var key :| FirstLeft(white, existing, cfg, key, id) && (Before(key, POST) || OwnReads(white, cfg) == None);
    LeftId(white, existing, cfg, hooks, key);
    forall other | other in hooks && Before(other, key)
      ensures IdOfEvent(white, Object(hooks), other) == None
    {
      LeftOrRewritten(cfg, other);
      if LeftAlone(cfg, other) {
        LeftId(white, existing, cfg, hooks, other);
      } else {
        var e: Event :| other == Key(e) && Rewritten(cfg, e);
        RewrittenId(white, existing, cfg, hooks, e);
        NotBeforePost(cfg, other, key);
      }
    }
    assert IsFirstId(white, Object(hooks), key, Some(id));
  }

  lemma NotBeforePost(cfg: Config, other: string, key: string)
    requires !LeftAlone(cfg, other) && Before(other, key)
    ensures !Before(key, POST)
  {
    if Before(key, POST) {
      BeforeTransitive(other, key, POST);
      LeftOrRewritten(cfg, other);
    }
  }

  lemma OwnIsRead(white: char -> bool, existing: Json, cfg: Config, hooks: map<string, Json>, id: string)
    requires Sensible(white) && Readable(white, cfg) && IsBuilt(existing, cfg, hooks)
    requires OwnReads(white, cfg) == Some(id) && NoneBefore(white, existing)
    ensures ReadsId(white, Object(hooks), Some(id))
  {
    PostWritten(white, existing, cfg, hooks);
    forall other | other in hooks && Before(other, POST)
      ensures IdOfEvent(white, Object(hooks), other) == None
    {
      LeftOrRewritten(cfg, other);
      LeftId(white, existing, cfg, hooks, other);
    }
    assert IsFirstId(white, Object(hooks), POST, Some(id));
  }

  /** What a build leaves alone names no project. */
  ghost predicate NoIdLeft(white: char -> bool, existing: Json, cfg: Config) {
    forall key | key in Fields(existing) && LeftAlone(cfg, key) :: IdOfEvent(white, existing, key) == None
  }

  /** Where the build leaves no id behind, the id written is the id read back if and
      only if it is one plain token. */
  lemma IdReadBackExactly(white: char -> bool, existing: Json, cfg: Config, hooks: map<string, Json>)
    requires Sensible(white) && Readable(white, cfg) && IsBuilt(existing, cfg, hooks)
    requires NoIdLeft(white, existing, cfg)
    ensures ReadsId(white, Object(hooks), Some(cfg.id)) <==> Token(white, cfg.id)
  {
    IdReadExactly(white, existing, cfg, hooks, cfg.id);
    OwnReadsExactly(white, cfg);
    NothingLeft(white, existing, cfg);
  }

  lemma NothingLeft(white: char -> bool, existing: Json, cfg: Config)
    requires NoIdLeft(white, existing, cfg)
    ensures !ReadsLeft(white, existing, cfg, cfg.id) && NoneBefore(white, existing)
  {
    forall key | key in Fields(existing) && Before(key, POST)
      ensures IdOfEvent(white, existing, key) == None
    {
      LeftOrRewritten(cfg, key);
    }
  }

  /** There is one id to read. */
  lemma ReadsIdUnique(white: char -> bool, v: Json, a: Option<string>, b: Option<string>)
    requires ReadsId(white, v, a) && ReadsId(white, v, b)
    ensures a == b
  {
    if a.Some? && b.Some? {
      var k :| k in Fields(v) && IsFirstId(white, v, k, a);
      var l :| l in Fields(v) && IsFirstId(white, v, l, b);
      if k != l {
        BeforeTotal(k, l);
      }
    }
  }

  /** An id read from settings is read again after building with it if and only if it
      is one plain token, or what the build left alone is read for it. */
  lemma IdKeptExactly(white: char -> bool, existing: Json, cfg: Config, hooks: map<string, Json>)
    requires Sensible(white) && Readable(white, cfg) && IsBuilt(existing, cfg, hooks)
    requires ReadsId(white, existing, Some(cfg.id))
    ensures ReadsId(white, Object(hooks), Some(cfg.id)) <==>
            Token(white, cfg.id) || ReadsLeft(white, existing, cfg, cfg.id)
  {
    IdReadExactly(white, existing, cfg, hooks, cfg.id);
    OwnReadsExactly(white, cfg);
    if !NoneBefore(white, existing) {
      EarlyIsLeft(white, existing, cfg);
    }
  }

  lemma EarlyIsLeft(white: char -> bool, existing: Json, cfg: Config)
    requires ReadsId(white, existing, Some(cfg.id)) && !NoneBefore(white, existing)
    ensures ReadsLeft(white, existing, cfg, cfg.id)
  {
    var key :| key in Fields(existing) && IsFirstId(white, existing, key, Some(cfg.id));
    var early :| early in Fields(existing) && Before(early, POST) && IdOfEvent(white, existing, early) != None;
    if early != key {
      BeforeTotal(early, key);
      BeforeTransitive(key, early, POST);
    }
    LeftOrRewritten(cfg, key);
    assert FirstLeft(white, existing, cfg, key, cfg.id);
  }

  lemma IdIsFound(white: char -> bool, v: Json, id: string)
    requires ReadsId(white, v, Some(id))
    ensures AnyEventHas(white, v, id)
  {
    var key :| key in Fields(v) && IsFirstId(white, v, key, Some(id));
    var k := IdInEntry(white, Items(Get(v, key)));
    assert Items(Get(v, key))[k] in Items(Get(v, key));
    assert EventHas(white, v, key, id);
  }

  // ---- Migration: read, then build ----

  /** The configuration a migration builds with: everything but the paths is read
      from what is installed. */
  ghost predicate Migrates(white: char -> bool, existing: Json, cfg: Config) {
    && ReadsId(white, existing, Some(cfg.id))
    && cfg.capture == InstalledAutoCapture(white, existing)
    && cfg.hints == InstalledSearchHints(white, existing)
    && cfg.refresh == InstalledGraphAutorefresh(white, existing)
  }

  /** One project's migration: nothing without an id; otherwise the hooks are rebuilt
      with the choices found. */
  method MigrateHooks(white: char -> bool, existing: Json, order: seq<string>, binary: string, log: string)
    returns (hooks: Option<map<string, Json>>)
    requires Iterates(existing, order)
    ensures hooks.None? ==> ReadsId(white, existing, None)
    ensures hooks.Some? ==> exists cfg: Config | cfg.binary == binary && cfg.log == log ::
      Migrates(white, existing, cfg) && IsBuilt(existing, cfg, hooks.value)
  {
    var id := InstalledProjectId(white, existing, order);
    if id.None? {
      return None;
    }
    var capture := InstalledAutoCapture(white, existing);
    var hints := InstalledSearchHints(white, existing);
    var refresh := InstalledGraphAutorefresh(white, existing);
    var cfg := Config(binary, id.value, log, capture, hints, refresh);
    var built := BuildHooksObject(existing, cfg);
    assert Migrates(white, existing, cfg) && IsBuilt(existing, cfg, built);
    hooks := Some(built);
  }

  lemma LeftoverWasThere(white: char -> bool, existing: Json, cfg: Config, w: string)
    requires Leftover(white, existing, cfg, w)
    ensures AnyEventHas(white, existing, w)
  {
  }

  /** Every verb the id or the paths hold stands for a choice already made. */
  ghost predicate SpeaksTrue(white: char -> bool, cfg: Config) {
    && (Spoken(white, cfg, AUTOREFRESH) ==> cfg.refresh)
    && (Spoken(white, cfg, ENQUEUE) || Spoken(white, cfg, SUMMARIZE) ==> cfg.capture)
  }

  /** Whatever hooks are installed, the migration after a migration finds the very
      choices the first one found, and so changes nothing, if and only if the id is
      kept and no word of the id or the paths reads as a choice not made. */
  lemma MigrationSettlesExactly(white: char -> bool, existing: Json, cfg: Config, once: map<string, Json>,
                                again: Config, twice: map<string, Json>)
    requires Sensible(white) && Readable(white, cfg)
    requires Migrates(white, existing, cfg) && IsBuilt(existing, cfg, once)
    requires again.binary == cfg.binary && again.log == cfg.log
    requires Migrates(white, Object(once), again) && IsBuilt(Object(once), again, twice)
    ensures again == cfg <==>
            (Token(white, cfg.id) || ReadsLeft(white, existing, cfg, cfg.id)) && SpeaksTrue(white, cfg)
    ensures again == cfg ==> twice == once
  {
    FlagsReadAgain(white, existing, cfg, once);
    IdKeptExactly(white, existing, cfg, once);
    if ReadsId(white, Object(once), Some(cfg.id)) {
      ReadsIdUnique(white, Object(once), Some(cfg.id), Some(again.id));
    }
    if again == cfg {
      RebuildFixpoint(existing, cfg, once, twice);
    }
  }

  /** Built with the choices found, the hooks read as those choices and the verbs the
      id and the paths hold. */
  lemma FlagsReadAgain(white: char -> bool, existing: Json, cfg: Config, once: map<string, Json>)
    requires Sensible(white) && Contains(cfg.binary, RUNAR)
    requires Migrates(white, existing, cfg) && IsBuilt(existing, cfg, once)
    ensures InstalledSearchHints(white, Object(once)) == cfg.hints
    ensures InstalledGraphAutorefresh(white, Object(once)) <==> cfg.refresh || Spoken(white, cfg, AUTOREFRESH)
    ensures InstalledAutoCapture(white, Object(once)) <==>
            cfg.capture || Spoken(white, cfg, ENQUEUE) || Spoken(white, cfg, SUMMARIZE)
  {
    FlagsReadBackExactly(white, existing, cfg, once);
    if Leftover(white, existing, cfg, AUTOREFRESH) {
      LeftoverWasThere(white, existing, cfg, AUTOREFRESH);
    }
    if Leftover(white, existing, cfg, ENQUEUE) {
      LeftoverWasThere(white, existing, cfg, ENQUEUE);
    }
    if Leftover(white, existing, cfg, SUMMARIZE) {
      LeftoverWasThere(white, existing, cfg, SUMMARIZE);
    }
  }

  /** The paths hold none of the verbs but those found. */
  ghost predicate PathsFound(white: char -> bool, v: Json, cfg: Config) {
    forall w | w in [AUTOREFRESH, ENQUEUE, SUMMARIZE] && (w in Front(white, cfg) || w in LogWords(white, cfg)) ::
      AnyEventHas(white, v, w)
  }

  lemma FoundSpeaksTrue(white: char -> bool, v: Json, cfg: Config)
    requires Sensible(white) && Token(white, cfg.id) && Migrates(white, v, cfg) && PathsFound(white, v, cfg)
    ensures SpeaksTrue(white, cfg)
  {
    TokenAlone(white, cfg.id);
    IdIsFound(white, v, cfg.id);
    SpokenFound(white, v, cfg, AUTOREFRESH);
    SpokenFound(white, v, cfg, ENQUEUE);
    SpokenFound(white, v, cfg, SUMMARIZE);
  }

  lemma SpokenFound(white: char -> bool, v: Json, cfg: Config, w: string)
    requires IdTokens(white, cfg.id) == [cfg.id] && AnyEventHas(white, v, cfg.id)
    requires w in [AUTOREFRESH, ENQUEUE, SUMMARIZE] && PathsFound(white, v, cfg)
    ensures Spoken(white, cfg, w) ==> AnyEventHas(white, v, w)
  {
  }

  /** No word of the two paths is one the readers look for. */
  ghost predicate QuietPaths(white: char -> bool, cfg: Config) {
    forall w | w in Front(white, cfg) || w in LogWords(white, cfg) :: !Detecting(w)
  }

  lemma QuietPathsFound(white: char -> bool, v: Json, cfg: Config)
    requires QuietPaths(white, cfg)
    ensures PathsFound(white, v, cfg)
  {
    assert forall w | w in [AUTOREFRESH, ENQUEUE, SUMMARIZE] :: Detecting(w);
  }

  /** With a plain id and quiet paths one migration is enough. */
  lemma MigrationSettles(white: char -> bool, existing: Json, cfg: Config, once: map<string, Json>,
                         again: Config, twice: map<string, Json>)
    requires Sensible(white) && Readable(white, cfg) && Token(white, cfg.id) && QuietPaths(white, cfg)
    requires Migrates(white, existing, cfg) && IsBuilt(existing, cfg, once)
    requires again.binary == cfg.binary && again.log == cfg.log
    requires Migrates(white, Object(once), again) && IsBuilt(Object(once), again, twice)
    ensures again == cfg && twice == once
  {
    QuietPathsFound(white, existing, cfg);
    FoundSpeaksTrue(white, existing, cfg);
    MigrationSettlesExactly(white, existing, cfg, once, again, twice);
  }

  lemma PathsFoundAgain(white: char -> bool, existing: Json, cfg: Config, once: map<string, Json>, again: Config)
    requires Sensible(white) && Contains(cfg.binary, RUNAR) && IsBuilt(existing, cfg, once)
    requires again.binary == cfg.binary && again.log == cfg.log
    ensures PathsFound(white, Object(once), again)
  {
    forall w | w in [AUTOREFRESH, ENQUEUE, SUMMARIZE] && (w in Front(white, again) || w in LogWords(white, again))
      ensures AnyEventHas(white, Object(once), w)
    {
      FoundExactly(white, existing, cfg, once, w);
    }
  }

  /** Whatever was installed and whatever the paths hold: once a migration reads a
      plain id from what a migration built, the next one changes nothing. */
  lemma SecondMigrationSettles(white: char -> bool, existing: Json, cfg: Config, once: map<string, Json>,
                               again: Config, twice: map<string, Json>, third: Config, thrice: map<string, Json>)
    requires Sensible(white) && Readable(white, cfg) && Token(white, again.id)
    requires again.binary == third.binary == cfg.binary && again.log == third.log == cfg.log
    requires Migrates(white, existing, cfg) && IsBuilt(existing, cfg, once)
    requires Migrates(white, Object(once), again) && IsBuilt(Object(once), again, twice)
    requires Migrates(white, Object(twice), third) && IsBuilt(Object(twice), third, thrice)
    ensures third == again && thrice == twice
  {
    PathsFoundAgain(white, existing, cfg, once, again);
    FoundSpeaksTrue(white, Object(once), again);
    MigrationSettlesExactly(white, Object(once), again, twice, third, thrice);
  }

  // ---- Concrete settings ----

  predicate IsSpace(c: char) {
    c == ' '
  }

  /** A configuration with the shortest of paths. */
  function Sample(id: string, capture: bool): Config {
    Config(RUNAR, id, "l", capture, false, false)
  }

  lemma SampleFront(cfg: Config)
    requires cfg.binary == RUNAR
    ensures Front(IsSpace, cfg) == [RUNAR]
  {
    SampleToken();
    TokenAlone(IsSpace, RUNAR);
  }

  lemma SampleToken()
    ensures Sensible(IsSpace) && Token(IsSpace, RUNAR)
  {
  }

  lemma SampleReadable(id: string, capture: bool)
    ensures Sensible(IsSpace) && Readable(IsSpace, Sample(id, capture))
  {
    SampleFront(Sample(id, capture));
    assert OccursAt(RUNAR, RUNAR, 0);
  }

  /** A project called `a'b` is called `a'\''b` when its hooks are next read. */
  lemma ApostropheRenamed(cfg: Config, hook: Hook)
    requires Readable(IsSpace, cfg) && cfg.id == "a" + [QUOTE] + "b"
    ensures IdOfTokens(Tokens(IsSpace, EntryFor(cfg, hook))) == Some("a" + [QUOTE, '\\', QUOTE, QUOTE] + "b")
  {
    OneQuoteEscaped("a", "b");
    EdgedSample(cfg.id);
    QuotedIdRenamed(IsSpace, cfg, hook);
  }

  lemma OneQuoteEscaped(a: string, b: string)
    requires QUOTE !in a && QUOTE !in b
    ensures Escape(a + [QUOTE] + b) == a + [QUOTE, '\\', QUOTE, QUOTE] + b
  {
    EscapeConcat(a + [QUOTE], b);
    EscapeConcat(a, [QUOTE]);
    EscapePlain(a);
    EscapePlain(b);
    assert [QUOTE][1..] == "" && Escape([QUOTE]) == [QUOTE, '\\', QUOTE, QUOTE];
  }

  lemma EdgedSample(id: string)
    requires |id| == 3 && id[0] == 'a' && id[1] == QUOTE && id[2] == 'b'
    ensures Edged(id) && Solid(id, IsSpace) && QUOTE in id
  {
    assert id[1] in id;
  }

  /** Setting up with auto-capture and then without leaves the session-end hook, and
      auto-capture reads back as on. */
  lemma OptOutReadsOn(once: map<string, Json>, twice: map<string, Json>)
    requires IsBuilt(Object(map[]), Sample("p", true), once)
    requires IsBuilt(Object(once), Sample("p", false), twice)
    ensures END in twice && InstalledAutoCapture(IsSpace, Object(twice))
  {
    SampleReadable("p", true);
    SampleReadable("p", false);
    CaptureWritten(IsSpace, Object(map[]), Sample("p", true), once);
    CaptureLeft(IsSpace, once, Sample("p", false), twice);
  }

  lemma CaptureWritten(white: char -> bool, existing: Json, cfg: Config, once: map<string, Json>)
    requires Sensible(white) && Contains(cfg.binary, RUNAR) && cfg.capture && IsBuilt(existing, cfg, once)
    ensures EventHas(white, Object(once), END, SUMMARIZE)
  {
    assert OwnHooks(cfg, SessionEnd)[0] == Hook(Summarize, ANY);
    VerbWords(Summarize);
    assert Answers(white, cfg, SessionEnd, SUMMARIZE);
    RewrittenHas(white, existing, cfg, once, SessionEnd, SUMMARIZE);
  }

  lemma CaptureLeft(white: char -> bool, once: map<string, Json>, cfg: Config, twice: map<string, Json>)
    requires Sensible(white) && Contains(cfg.binary, RUNAR) && !cfg.capture && IsBuilt(Object(once), cfg, twice)
    requires EventHas(white, Object(once), END, SUMMARIZE)
    ensures END in twice && InstalledAutoCapture(white, Object(twice))
  {
    assert END in once;
    assert Leftover(white, Object(once), cfg, SUMMARIZE);
    FlagsReadBackExactly(white, Object(once), cfg, twice);
  }

  /** With auto-capture off and nothing installed before, a project called
      `my enqueue` reads back as having it on. */
  lemma SpacedIdReadsOn(hooks: map<string, Json>)
    requires IsBuilt(Object(map[]), Sample("my" + " " + ENQUEUE, false), hooks)
    ensures InstalledAutoCapture(IsSpace, Object(hooks))
  {
    var cfg := Sample("my" + " " + ENQUEUE, false);
    SampleReadable(cfg.id, false);
    SampleWords();
    SecondWordReadsOn(IsSpace, Object(map[]), cfg, "my", hooks);
  }

  lemma SampleWords()
    ensures Token(IsSpace, "my") && Token(IsSpace, ENQUEUE)
  {
  }

  /** So does every project of two plain words whose second is that verb. */
  lemma SecondWordReadsOn(white: char -> bool, existing: Json, cfg: Config, first: string, hooks: map<string, Json>)
    requires Sensible(white) && Contains(cfg.binary, RUNAR) && IsBuilt(existing, cfg, hooks)
    requires Token(white, first) && Token(white, ENQUEUE) && cfg.id == first + " " + ENQUEUE
    ensures InstalledAutoCapture(white, Object(hooks))
  {
    SecondWord(white, first, ENQUEUE);
    FoundExactly(white, existing, cfg, hooks, ENQUEUE);
  }

  lemma SecondWord(white: char -> bool, first: string, second: string)
    requires Sensible(white) && Token(white, first) && Token(white, second)
    ensures IdTokens(white, first + " " + second) == [first, second]
  {
    FirstWord(white, first, second);
    EscapePlain(second);
    OneWord(second + [QUOTE], white);
    TrimClosing(second);
  }
}
