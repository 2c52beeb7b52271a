/**
  The shell command a session is started with, and the lexer of a POSIX shell that has to read it back:
  token recognition, single quotes and double quotes of sections 2.2 and 2.3 of POSIX.1-2017 XCU. Strings
  are byte strings; every byte that matters to the shell is an ASCII character.
 */
module ShellCommand {
  import opened Base

  // ----- the shell's side

  /** A character of a word, and whether it was quoted. */
  datatype Lit = Lit(c: char, quoted: bool)

  datatype Token = Word(text: seq<Lit>) | IoNumber(digits: string) | Great | DGreat

  /** What the lexer is in the middle of. `Bad` is input outside the rules modelled here: expansions,
      command separators and comments, and quotes that do not end. */
  datatype Mode =
    | Between                          // between tokens
    | InWord(word: seq<Lit>)           // in the unquoted part of a word
    | Escaped(word: seq<Lit>)          // after an unquoted backslash
    | Single(word: seq<Lit>)           // between single quotes
    | Double(word: seq<Lit>)           // between double quotes
    | AfterGreat                       // after one '>'
    | Bad

  datatype Lexer = Lexer(tokens: seq<Token>, mode: Mode)

  const IDLE: Lexer := Lexer([], Between)

  predicate IsBlank(c: char) { c == ' ' || c == '\t' }

  predicate IsDigit(c: char) { '0' <= c <= '9' }

  /** Unquoted characters that start an expansion, separate commands or start a comment. */
  predicate IsBeyond(c: char) {
    c in ['$', '`', '*', '?', '[', '#', '~', '&', '|', ';', '(', ')', '<', '\n']
  }

  /** A word of unquoted digits right before a redirection operator is the number of a file descriptor. */
  function Delimited(word: seq<Lit>, beforeOperator: bool): Token {
    if beforeOperator && word != [] && (forall k | 0 <= k < |word| :: !word[k].quoted && IsDigit(word[k].c)) then
      IoNumber(Plain(word))
    else
      Word(word)
  }

  function Plain(word: seq<Lit>): string {
    seq(|word|, i requires 0 <= i < |word| => word[i].c)
  }

  /** One unquoted character, with the word collected so far; `some` tells whether a word has begun. */
  function Unquoted(l: Lexer, word: seq<Lit>, some: bool, c: char): Lexer {
    if c == '\'' then l.(mode := Single(word))
    else if c == '"' then l.(mode := Double(word))
    else if c == '\\' then l.(mode := Escaped(word))
    else if IsBlank(c) then
      Lexer(if some then l.tokens + [Delimited(word, false)] else l.tokens, Between)
    else if c == '>' then
      Lexer(if some then l.tokens + [Delimited(word, true)] else l.tokens, AfterGreat)
    else if IsBeyond(c) then l.(mode := Bad)
    else l.(mode := InWord(word + [Lit(c, false)]))
  }

  function Step(l: Lexer, c: char): Lexer {
    match l.mode
    case Between => Unquoted(l, [], false, c)
    case InWord(word) => Unquoted(l, word, true, c)
    case Escaped(word) => if c == '\n' then l.(mode := Bad) else l.(mode := InWord(word + [Lit(c, true)]))
    case Single(word) => l.(mode := if c == '\'' then InWord(word) else Single(word + [Lit(c, true)]))
    case Double(word) =>
      l.(mode := if c == '"' then InWord(word)
                 else if c in ['$', '`', '\\'] then Bad
                 else Double(word + [Lit(c, true)]))
    case AfterGreat =>
      if c == '>' then Lexer(l.tokens + [DGreat], Between)
      else if c in ['&', '|'] then l.(mode := Bad)
      else Unquoted(Lexer(l.tokens + [Great], Between), [], false, c)
    case Bad => l
  }

  function Feed(l: Lexer, s: string): Lexer
    decreases |s|
  {
    if s == [] then l else Feed(Step(l, s[0]), s[1..])
  }

  /** The tokens of a complete command; `None` if it ends in a quote or leaves the rules modelled here. */
  function Tokens(l: Lexer): Option<seq<Token>> {
    match l.mode
    case Between => Some(l.tokens)
    case InWord(word) => Some(l.tokens + [Delimited(word, false)])
    case AfterGreat => Some(l.tokens + [Great])
    case _ => None
  }

  function Lex(s: string): Option<seq<Token>> {
    Tokens(Feed(IDLE, s))
  }

  lemma {:induction false} FeedAppends(l: Lexer, a: string, b: string)
    ensures Feed(l, a + b) == Feed(Feed(l, a), b)
    decreases |a|
  {
    if a == [] {
      assert a + b == b;
    } else {
      assert (a + b)[1..] == a[1..] + b;
      FeedAppends(Step(l, a[0]), a[1..], b);
    }
  }

  /** Tokens found earlier play no part in reading on. */
  lemma {:induction false} FeedKeepsTokens(l: Lexer, before: seq<Token>, s: string)
    ensures Feed(l.(tokens := before + l.tokens), s)
            == var f := Feed(l, s); f.(tokens := before + f.tokens)
    decreases |s|
  {
    if s != [] {
      var l' := Step(l, s[0]);
      StepKeepsTokens(l, before, s[0]);
      FeedKeepsTokens(l', before, s[1..]);
    }
  }

  lemma StepKeepsTokens(l: Lexer, before: seq<Token>, c: char)
    ensures Step(l.(tokens := before + l.tokens), c) == var f := Step(l, c); f.(tokens := before + f.tokens)
  {
    assert forall t: Token :: before + l.tokens + [t] == before + (l.tokens + [t]);
    assert forall t: Token, u: Token :: before + l.tokens + [t] + [u] == before + (l.tokens + [t] + [u]);
  }

  // ----- quoting

  /** Every single quote becomes: end quote, a quote in double quotes, begin quote. */
  function EscapeQuotes(value: string): string {
    if value == [] then []
    else (if value[0] == '\'' then "'\"'\"'" else [value[0]]) + EscapeQuotes(value[1..])
  }

  function ShellSingleQuote(value: string): string {
    "'" + EscapeQuotes(value) + "'"
  }

  function Quoted(value: string): seq<Lit> {
    seq(|value|, i requires 0 <= i < |value| => Lit(value[i], true))
  }

  /** Quoting goes character by character, and only a single quote is written differently. */
  lemma {:induction false} QuotesAreEscapedOneByOne(a: string, b: string)
    ensures EscapeQuotes(a + b) == EscapeQuotes(a) + EscapeQuotes(b)
    ensures EscapeQuotes("'") == "'\"'\"'"
  {
    if a == [] {
      assert a + b == b;
    } else {
      assert (a + b)[1..] == a[1..] + b;
      QuotesAreEscapedOneByOne(a[1..], b);
    }
  }

  lemma {:induction false} PlainIsUnescaped(a: string)
    requires forall i | 0 <= i < |a| :: a[i] != '\''
    ensures EscapeQuotes(a) == a && ShellSingleQuote(a) == "'" + a + "'"
  {
    if a != [] {
      PlainIsUnescaped(a[1..]);
    }
  }

  lemma {:induction false} EscapedReadsBack(l: Lexer, word: seq<Lit>, value: string)
    requires l.mode == Single(word)
    ensures Feed(l, EscapeQuotes(value)) == l.(mode := Single(word + Quoted(value)))
    decreases |value|
  {
    if value == [] {
      assert word + Quoted(value) == word;
    } else {
      var c := value[0];
      var word' := word + [Lit(c, true)];
      var l' := l.(mode := Single(word'));
      var head := if c == '\'' then "'\"'\"'" else [c];
      assert Feed(l, head) == l' by {
        if c == '\'' {
          QuoteInQuotes(l, word);
        } else {
          assert head[1..] == [];
        }
      }
      FeedAppends(l, head, EscapeQuotes(value[1..]));
      EscapedReadsBack(l', word', value[1..]);
      assert word' + Quoted(value[1..]) == word + Quoted(value);
    }
  }

  lemma QuoteInQuotes(l: Lexer, word: seq<Lit>)
    requires l.mode == Single(word)
    ensures Feed(l, "'\"'\"'") == l.(mode := Single(word + [Lit('\'', true)]))
  {
    var q := "'\"'\"'";
    var l1 := Step(l, q[0]);
    var l2 := Step(l1, q[1]);
    var l3 := Step(l2, q[2]);
    var l4 := Step(l3, q[3]);
    assert q[1..] == "\"'\"'" && q[1..][1..] == "'\"'" && q[1..][1..][1..] == "\"'" && q[1..][1..][1..][1..] == "'";
    assert l3.mode == Double(word + [Lit('\'', true)]);
    assert Feed(l4, "'") == Step(l4, '\'');
  }

  /** Read where a word may start or go on, a quoted value adds exactly its characters, all of them quoted. */
  lemma QuoteReadsBack(l: Lexer, word: seq<Lit>, value: string)
    requires l.mode == InWord(word) || (l.mode == Between && word == [])
    ensures Feed(l, ShellSingleQuote(value)) == l.(mode := InWord(word + Quoted(value)))
  {
    var q := "'";
    assert q[1..] == [];
    FeedAppends(l, q, EscapeQuotes(value) + q);
    assert ShellSingleQuote(value) == q + (EscapeQuotes(value) + q);
    var l1 := l.(mode := Single(word));
    assert Feed(l, q) == l1;
    EscapedReadsBack(l1, word, value);
    FeedAppends(l1, EscapeQuotes(value), q);
  }

  /** Unquoting is the inverse of quoting, for every string. */
  lemma UnquoteQuote(value: string)
    ensures Lex(ShellSingleQuote(value)) == Some([Word(Quoted(value))])
    ensures Plain(Quoted(value)) == value
  {
    QuoteReadsBack(IDLE, [], value);
    assert [] + Quoted(value) == Quoted(value);
    assert [] + [Word(Quoted(value))] == [Word(Quoted(value))];
  }

  // ----- names

  predicate IsLetter(c: char) {
    'A' <= c <= 'Z' || 'a' <= c <= 'z' || c == '_'
  }

  /** A name the shell accepts on the left of an assignment. */
  predicate IsName(name: string) {
    name != [] && forall i | 0 <= i < |name| :: IsLetter(name[i]) || (i > 0 && IsDigit(name[i]))
  }

  method ValidShellVarName(name: string) returns (valid: bool)
    ensures valid == IsName(name)
    ensures valid <==>
              && |name| > 0 && !('0' <= name[0] <= '9')
              && forall i | 0 <= i < |name| ::
                   'A' <= name[i] <= 'Z' || 'a' <= name[i] <= 'z' || name[i] == '_' || '0' <= name[i] <= '9'
  {
    if name == "" {
      return false;
    }
    for i := 0 to |name|
      invariant forall k | 0 <= k < i :: IsLetter(name[k]) || (k > 0 && IsDigit(name[k]))
    {
      if !IsLetter(name[i]) && !(i > 0 && IsDigit(name[i])) {
        return false;
      }
    }
    return true;
  }

  /** The environment entries that are passed on. */
  predicate Kept(key: string) {
    key !in ["", "TERM", "TMUX", "TMUX_PANE"] && IsName(key)
  }

  /** Byte order of strings. */
  predicate Below(a: string, b: string) {
    if b == [] then false
    else if a == [] then true
    else a[0] < b[0] || (a[0] == b[0] && Below(a[1..], b[1..]))
  }

  /** The strings agree up to position `n`, and there the first ends or has the smaller character. */
  predicate Precedes(a: string, b: string, n: nat) {
    && n <= |a| && n <= |b| && a[..n] == b[..n]
    && ((n == |a| && n < |b|) || (n < |a| && n < |b| && a[n] < b[n]))
  }

  /** Byte order: that of the first difference. */
  ghost predicate InByteOrder(a: string, b: string) {
    exists n: nat :: Precedes(a, b, n)
  }

  lemma {:induction false} BelowIsByFirstDifference(a: string, b: string)
    ensures Below(a, b) <==> InByteOrder(a, b)
  {
    if a == [] || b == [] {
      assert b != [] ==> Precedes([], b, 0);
    } else {
      BelowIsByFirstDifference(a[1..], b[1..]);
      if a[0] < b[0] {
        assert Precedes(a, b, 0);
      }
      if a[0] == b[0] && Below(a[1..], b[1..]) {
        var n: nat :| Precedes(a[1..], b[1..], n);
        assert a[..n + 1] == [a[0]] + a[1..][..n] && b[..n + 1] == [b[0]] + b[1..][..n];
        assert Precedes(a, b, n + 1);
      }
      forall n: nat | Precedes(a, b, n)
        ensures Below(a, b)
      {
        if n > 0 {
          assert a[..n][0] == b[..n][0] && a[..n][1..] == a[1..][..n - 1] && b[..n][1..] == b[1..][..n - 1];
          assert Precedes(a[1..], b[1..], n - 1);
        }
      }
    }
  }

  lemma {:induction false} BelowIsTotal(a: string, b: string)
    ensures a == b || Below(a, b) || Below(b, a)
  {
    if a != [] && b != [] && a[0] == b[0] {
      BelowIsTotal(a[1..], b[1..]);
      if a[1..] == b[1..] {
        assert a == [a[0]] + a[1..] && b == [b[0]] + b[1..];
      }
    }
  }

  lemma {:induction false} BelowIsStrict(a: string, b: string, c: string)
    requires Below(a, b) && Below(b, c)
    ensures Below(a, c) && a != c
  {
    if a != [] && b[0] == a[0] && c[0] == b[0] {
      BelowIsStrict(a[1..], b[1..], c[1..]);
    }
    if a == c {
      BelowIsAsymmetric(a, b);
    }
  }

  lemma {:induction false} BelowIsAsymmetric(a: string, b: string)
    requires Below(a, b)
    ensures !Below(b, a) && a != b
  {
    if a != [] && a[0] == b[0] {
      BelowIsAsymmetric(a[1..], b[1..]);
    }
  }

  ghost predicate Ascending(keys: seq<string>) {
    forall i, j | 0 <= i < j < |keys| :: Below(keys[i], keys[j])
  }

  lemma EmptyTogether(a: seq<string>, b: seq<string>)
    requires forall k :: k in a <==> k in b
    ensures a == [] <==> b == []
  {
    assert a != [] ==> a[0] in a;
    assert b != [] ==> b[0] in b;
  }

  /** There is only one way to write a set of keys in strictly ascending order. */
  lemma {:induction false} AscendingIsUnique(a: seq<string>, b: seq<string>)
    requires Ascending(a) && Ascending(b)
    requires forall k :: k in a <==> k in b
    ensures a == b
    decreases |a|
  {
    EmptyTogether(a, b);
    if a != [] {
      assert a[0] in b && b != [];
      SameLeast(a, b);
      forall k
        ensures k in a[1..] <==> k in b[1..]
      {
        TailHasOthers(a, k);
        TailHasOthers(b, k);
      }
      AscendingIsUnique(a[1..], b[1..]);
      assert a == [a[0]] + a[1..] && b == [b[0]] + b[1..];
    }
  }

  lemma SameLeast(a: seq<string>, b: seq<string>)
    requires a != [] && b != [] && Ascending(a) && Ascending(b) && a[0] in b && b[0] in a
    ensures a[0] == b[0]
  {
    if a[0] != b[0] {
      var i :| 0 <= i < |b| && b[i] == a[0];
      var j :| 0 <= j < |a| && a[j] == b[0];
      BelowIsAsymmetric(b[0], a[0]);
    }
  }

  lemma TailHasOthers(a: seq<string>, k: string)
    requires a != [] && Ascending(a)
    ensures k in a[1..] <==> k in a && k != a[0]
  {
    if k in a[1..] {
      var i :| 0 <= i < |a[1..]| && a[1..][i] == k;
      BelowIsAsymmetric(a[0], a[i + 1]);
    }
  }

  // ----- the command

  function AssignmentsText(keys: seq<string>, env: map<string, string>): string
    requires forall k | k in keys :: k in env
  {
    if keys == [] then []
    else keys[0] + "=" + ShellSingleQuote(env[keys[0]]) + " " + AssignmentsText(keys[1..], env)
  }

  function RedirectText(errLogPath: string): string {
    if errLogPath == "" then "" else " 2>>" + ShellSingleQuote(errLogPath)
  }

  /** The entries of `env` that are kept, in byte order. */
  ghost predicate IsKeptKeys(keys: seq<string>, env: map<string, string>) {
    Ascending(keys) && forall k :: k in keys <==> k in env && Kept(k)
  }

  /** Sorting as the library does it for distinct strings: an ordered permutation. */
  method SortStrings(keys: seq<string>) returns (sorted: seq<string>)
    requires forall i, j | 0 <= i < j < |keys| :: keys[i] != keys[j]
    ensures Ascending(sorted) && forall k :: k in sorted <==> k in keys
    ensures forall i, j | 0 <= i < j < |sorted| :: InByteOrder(sorted[i], sorted[j])
  {
    sorted := [];
    for n := 0 to |keys|
      invariant Ascending(sorted)
      invariant forall k :: k in sorted <==> k in keys[..n]
    {
      var key, pos := keys[n], 0;
      while pos < |sorted| && Below(sorted[pos], key)
        invariant 0 <= pos <= |sorted|
        invariant forall i | 0 <= i < pos :: Below(sorted[i], key)
      {
        pos := pos + 1;
      }
      assert key !in sorted;
      InsertKeepsAscending(sorted, key, pos);
      sorted := sorted[..pos] + [key] + sorted[pos..];
      assert keys[..n + 1] == keys[..n] + [key];
    }
    assert keys[..|keys|] == keys;
    forall i, j | 0 <= i < j < |sorted|
      ensures InByteOrder(sorted[i], sorted[j])
    {
      BelowIsByFirstDifference(sorted[i], sorted[j]);
    }
  }

  lemma InsertKeepsAscending(sorted: seq<string>, key: string, pos: nat)
    requires Ascending(sorted) && key !in sorted && pos <= |sorted|
    requires forall i | 0 <= i < pos :: Below(sorted[i], key)
    requires pos < |sorted| ==> !Below(sorted[pos], key)
    ensures Ascending(sorted[..pos] + [key] + sorted[pos..])
    ensures forall k :: k in sorted[..pos] + [key] + sorted[pos..] <==> k in sorted || k == key
  {
    forall j | pos <= j < |sorted|
      ensures Below(key, sorted[j])
    {
      BelowIsTotal(key, sorted[pos]);
      if pos < j {
        BelowIsStrict(key, sorted[pos], sorted[j]);
      }
    }
    assert sorted == sorted[..pos] + sorted[pos..];
  }

  /** The keys that are kept, each once, in whatever order the map is iterated in. */
  method CollectKeys(env: map<string, string>) returns (keys: seq<string>)
    ensures forall k :: k in keys <==> k in env && Kept(k)
    ensures forall k :: k in keys <==>
              k in env && k != "TERM" && k != "TMUX" && k != "TMUX_PANE" && IsName(k)
    ensures forall i, j | 0 <= i < j < |keys| :: keys[i] != keys[j]
  {
    keys := [];
    var todo := env.Keys;
    while todo != {}
      invariant todo <= env.Keys
      invariant forall k :: k in keys <==> k in env && k !in todo && Kept(k)
      invariant forall i, j | 0 <= i < j < |keys| :: keys[i] != keys[j]
      decreases |todo|
    {
      var key :| key in todo;
      todo := todo - {key};
      if key == "" || key == "TERM" || key == "TMUX" || key == "TMUX_PANE" {
        continue;
      }
      var valid := ValidShellVarName(key);
      if !valid {
        continue;
      }
      keys := keys + [key];
    }
  }

  method WriteAssignments(keys: seq<string>, env: map<string, string>) returns (text: string)
    requires forall k | k in keys :: k in env
    ensures text == AssignmentsText(keys, env)
  {
    text := "";
    for i := 0 to |keys|
      invariant text + AssignmentsText(keys[i..], env) == AssignmentsText(keys, env)
    {
      assert keys[i..][1..] == keys[i + 1..];
      var part := keys[i] + "=" + ShellSingleQuote(env[keys[i]]) + " ";
      assert AssignmentsText(keys[i..], env) == part + AssignmentsText(keys[i + 1..], env);
      assert text + (part + AssignmentsText(keys[i + 1..], env)) == text + part + AssignmentsText(keys[i + 1..], env);
      text := text + part;
    }
    assert keys[|keys|..] == [];
  }

  function CommandText(keys: seq<string>, env: map<string, string>, toolCommand: string, errLogPath: string): string
    requires forall k | k in keys :: k in env
  {
    AssignmentsText(keys, env) + "exec " + toolCommand + RedirectText(errLogPath)
  }

  /** Assignments and the rest of the command, written out. */
  lemma AssignmentsWrittenOut()
    ensures AssignmentsText(["A", "B"], map["A" := "x", "B" := "y"]) == "A='x' B='y' "
  {
    var env := map["A" := "x", "B" := "y"];
    PlainIsUnescaped("x");
    PlainIsUnescaped("y");
    assert ["A", "B"][1..] == ["B"] && ["B"][1..] == [];
    assert ShellSingleQuote("x") == "'x'" && ShellSingleQuote("y") == "'y'";
    assert AssignmentsText(["B"], env) == "B='y' ";
  }

  lemma CommandWrittenOut(env: map<string, string>)
    ensures CommandText([], env, "t", "") == "exec t"
    ensures CommandText([], env, "t", "e") == "exec t 2>>'e'"
  {
    PlainIsUnescaped("e");
  }

  /** Whatever order the map is iterated in, the command has its assignments in byte order: it is the text of
      every ascending list of the kept keys, and there is one. */
  method BuildShellCommand(toolCommand: string, env: map<string, string>, errLogPath: string)
    returns (command: string)
    ensures forall keys | IsKeptKeys(keys, env) :: command == CommandText(keys, env, toolCommand, errLogPath)
    ensures exists keys :: IsKeptKeys(keys, env)
  {
    var keys := CollectKeys(env);
    keys := SortStrings(keys);
    command := WriteAssignments(keys, env);
    command := command + "exec " + toolCommand;
    ghost var unredirected := command;
    if errLogPath != "" {
      command := command + (" 2>>" + ShellSingleQuote(errLogPath));
    }
    assert command == unredirected + RedirectText(errLogPath);
    assert IsKeptKeys(keys, env);
    KeptKeysAreUnique(keys, env);
  }

  lemma KeptKeysAreUnique(keys: seq<string>, env: map<string, string>)
    requires IsKeptKeys(keys, env)
    ensures forall others | IsKeptKeys(others, env) :: others == keys
  {
    forall others | IsKeptKeys(others, env)
      ensures others == keys
    {
      AscendingIsUnique(others, keys);
    }
  }

  // ----- reading the command back

  function Bare(s: string): seq<Lit> {
    seq(|s|, i requires 0 <= i < |s| => Lit(s[i], false))
  }

  /** The first unquoted '=' of a word, or its length. */
  function EqualsAt(word: seq<Lit>): (i: nat)
    ensures i <= |word|
    ensures i < |word| ==> word[i] == Lit('=', false)
    ensures forall k | 0 <= k < i :: word[k] != Lit('=', false)
  {
    if word == [] || word[0] == Lit('=', false) then 0 else 1 + EqualsAt(word[1..])
  }

  /** How the shell takes a word before the command name: a name, an unquoted '=', and a value. */
  function Assignment(word: seq<Lit>): Option<(string, seq<Lit>)> {
    var i := EqualsAt(word);
    if i < |word| && word[..i] == Bare(Plain(word[..i])) && IsName(Plain(word[..i])) then
      Some((Plain(word[..i]), word[i + 1..]))
    else
      None
  }

  function AssignmentWord(key: string, value: string): seq<Lit> {
    Bare(key) + [Lit('=', false)] + Quoted(value)
  }

  function AssignmentTokens(keys: seq<string>, env: map<string, string>): seq<Token>
    requires forall k | k in keys :: k in env
  {
    seq(|keys|, i requires 0 <= i < |keys| => Word(AssignmentWord(keys[i], env[keys[i]])))
  }

  /** The shell sees the assignment that was meant: the key, and the value byte for byte with nothing left to expand. */
  lemma AssignmentWordMeansEntry(key: string, value: string)
    requires IsName(key)
    ensures Assignment(AssignmentWord(key, value)) == Some((key, Quoted(value)))
    ensures Plain(Quoted(value)) == value
  {
    var word := AssignmentWord(key, value);
    var i := EqualsAt(word);
    assert word[|key|] == Lit('=', false);
    assert forall k | 0 <= k < |key| :: word[k] == Lit(key[k], false) && key[k] != '=';
    assert i == |key|;
    assert word[..i] == Bare(key) && Plain(Bare(key)) == key;
    assert word[i + 1..] == Quoted(value);
  }

  /** Plain characters add themselves, unquoted, to a word. */
  lemma {:induction false} PlainCharactersJoinTheWord(l: Lexer, word: seq<Lit>, s: string)
    requires l.mode == InWord(word) || (l.mode == Between && word == [])
    requires s != [] && forall i | 0 <= i < |s| :: IsLetter(s[i]) || IsDigit(s[i]) || s[i] == '='
    ensures Feed(l, s) == l.(mode := InWord(word + Bare(s)))
    decreases |s|
  {
    var word' := word + [Lit(s[0], false)];
    var l' := Step(l, s[0]);
    assert l' == l.(mode := InWord(word'));
    if |s| > 1 {
      PlainCharactersJoinTheWord(l', word', s[1..]);
      assert word' + Bare(s[1..]) == word + Bare(s);
    } else {
      assert s[1..] == [] && word' == word + Bare(s);
    }
  }

  lemma BlankEndsTheToken(l: Lexer)
    requires Tokens(l).Some?
    ensures Feed(l, " ") == Lexer(Tokens(l).value, Between)
  {
    var blank := " ";
    assert blank[1..] == [];
  }

  lemma {:induction false} AssignmentsReadBack(l: Lexer, keys: seq<string>, env: map<string, string>)
    requires l.mode == Between
    requires forall k | k in keys :: k in env && IsName(k)
    ensures Feed(l, AssignmentsText(keys, env)) == Lexer(l.tokens + AssignmentTokens(keys, env), Between)
    decreases |keys|
  {
    if keys == [] {
      assert l.tokens + AssignmentTokens(keys, env) == l.tokens;
    } else {
      var key, value := keys[0], env[keys[0]];
      OneAssignmentReadsBack(l, key, value);
      var part := key + "=" + ShellSingleQuote(value) + " ";
      var l' := Lexer(l.tokens + [Word(AssignmentWord(key, value))], Between);
      FeedAppends(l, part, AssignmentsText(keys[1..], env));
      AssignmentsReadBack(l', keys[1..], env);
      assert l'.tokens + AssignmentTokens(keys[1..], env) == l.tokens + AssignmentTokens(keys, env);
    }
  }

  lemma OneAssignmentReadsBack(l: Lexer, key: string, value: string)
    requires l.mode == Between && IsName(key)
    ensures Feed(l, key + "=" + ShellSingleQuote(value) + " ")
            == Lexer(l.tokens + [Word(AssignmentWord(key, value))], Between)
  {
    var name := key + "=";
    PlainCharactersJoinTheWord(l, [], name);
    assert [] + Bare(name) == Bare(key) + [Lit('=', false)];
    var l1 := l.(mode := InWord(Bare(name)));
    QuoteReadsBack(l1, Bare(name), value);
    var l2 := l.(mode := InWord(AssignmentWord(key, value)));
    var quote := ShellSingleQuote(value);
    assert Feed(l, name) == l1;
    assert Bare(name) + Quoted(value) == AssignmentWord(key, value);
    assert Feed(l1, quote) == l2;
    FeedAppends(l, name, quote);
    assert Feed(l, name + quote) == l2;
    BlankEndsTheToken(l2);
    FeedAppends(l, name + quote, " ");
  }

  lemma ExecReadsBack(l: Lexer)
    requires l.mode == Between
    ensures Feed(l, "exec ") == Lexer(l.tokens + [Word(Bare("exec"))], Between)
  {
    PlainCharactersJoinTheWord(l, [], "exec");
    assert [] + Bare("exec") == Bare("exec");
    BlankEndsTheToken(l.(mode := InWord(Bare("exec"))));
    FeedAppends(l, "exec", " ");
  }

  /** The redirection of standard error to the log file, when there is one. */
  function RedirectTokens(errLogPath: string): seq<Token> {
    if errLogPath == "" then [] else [IoNumber("2"), DGreat, Word(Quoted(errLogPath))]
  }

  lemma RedirectReadsBack(l: Lexer, errLogPath: string)
    requires Tokens(l).Some?
    ensures Tokens(Feed(l, RedirectText(errLogPath))) == Some(Tokens(l).value + RedirectTokens(errLogPath))
  {
    if errLogPath == "" {
      assert Tokens(l).value + RedirectTokens(errLogPath) == Tokens(l).value;
    } else {
      var op, q := "2>>", ShellSingleQuote(errLogPath);
      BlankEndsTheToken(l);
      var l1 := Lexer(Tokens(l).value, Between);
      RedirectOperatorReadsBack(l1);
      var l2 := Lexer(l1.tokens + [IoNumber("2"), DGreat], Between);
      QuoteReadsBack(l2, [], errLogPath);
      assert [] + Quoted(errLogPath) == Quoted(errLogPath);
      FeedAppends(l1, op, q);
      FeedAppends(l, " ", op + q);
      assert " 2>>" + q == " " + (op + q);
      assert l2.tokens + [Word(Quoted(errLogPath))] == Tokens(l).value + RedirectTokens(errLogPath);
    }
  }

  lemma RedirectOperatorReadsBack(l: Lexer)
    requires l.mode == Between
    ensures Feed(l, "2>>") == Lexer(l.tokens + [IoNumber("2"), DGreat], Between)
  {
    var op := "2>>";
    var digit := [Lit('2', false)];
    assert op[1..] == ">>" && op[1..][1..] == ">" && op[1..][1..][1..] == "";
    assert Step(l, '2') == l.(mode := InWord(digit));
    assert Delimited(digit, true) == IoNumber("2") by {
      assert Plain(digit) == "2";
    }
    var l2 := Lexer(l.tokens + [IoNumber("2")], AfterGreat);
    assert Step(l.(mode := InWord(digit)), '>') == l2;
    assert Step(l2, '>') == Lexer(l.tokens + [IoNumber("2"), DGreat], Between);
    assert Feed(l2, ">") == Step(l2, '>');
  }

  /** Whatever the tool command is, the shell first reads exactly the kept entries and the word `exec`. */
  lemma EntriesAreReadFirst(keys: seq<string>, env: map<string, string>, rest: string)
    requires IsKeptKeys(keys, env)
    ensures Feed(IDLE, AssignmentsText(keys, env) + "exec " + rest)
            == Feed(Lexer(AssignmentTokens(keys, env) + [Word(Bare("exec"))], Between), rest)
  {
    AssignmentsReadBack(IDLE, keys, env);
    var l := Lexer(AssignmentTokens(keys, env), Between);
    assert [] + AssignmentTokens(keys, env) == AssignmentTokens(keys, env);
    ExecReadsBack(l);
    FeedAppends(IDLE, AssignmentsText(keys, env), "exec ");
    FeedAppends(IDLE, AssignmentsText(keys, env) + "exec ", rest);
  }

  lemma Regroup(a: string, b: string, c: string)
    ensures a + b + c == a + (b + c)
  {
  }

  /** After any complete tokens, the tool command and the redirect add their own. */
  lemma ToolReadsBack(before: seq<Token>, tool: string, errLogPath: string)
    requires Lex(tool).Some?
    ensures Tokens(Feed(Lexer(before, Between), tool + RedirectText(errLogPath)))
            == Some(before + Lex(tool).value + RedirectTokens(errLogPath))
  {
    FeedAppends(Lexer(before, Between), tool, RedirectText(errLogPath));
    FeedKeepsTokens(IDLE, before, tool);
    assert IDLE.(tokens := before + []) == Lexer(before, Between);
    var f := Feed(IDLE, tool);
    ToolTokensFollow(f, before);
    RedirectReadsBack(f.(tokens := before + f.tokens), errLogPath);
  }

  lemma AssignmentsMeanEntries(keys: seq<string>, env: map<string, string>)
    requires IsKeptKeys(keys, env)
    ensures forall i | 0 <= i < |keys| ::
              Assignment(AssignmentTokens(keys, env)[i].text) == Some((keys[i], Quoted(env[keys[i]])))
              && Plain(Quoted(env[keys[i]])) == env[keys[i]]
  {
    forall i | 0 <= i < |keys|
      ensures Assignment(AssignmentTokens(keys, env)[i].text) == Some((keys[i], Quoted(env[keys[i]])))
              && Plain(Quoted(env[keys[i]])) == env[keys[i]]
    {
      assert keys[i] in keys;
      AssignmentWordMeansEntry(keys[i], env[keys[i]]);
    }
  }

  /** The round trip: for every environment, every log path and every tool command the lexer can read on its
      own, lexing the command yields the kept entries in order, `exec`, the tool's tokens and the redirect. */
  lemma CommandReadsBack(keys: seq<string>, env: map<string, string>, tool: string, errLogPath: string)
    requires IsKeptKeys(keys, env) && Lex(tool).Some?
    ensures Lex(CommandText(keys, env, tool, errLogPath))
            == Some(AssignmentTokens(keys, env) + [Word(Bare("exec"))] + Lex(tool).value + RedirectTokens(errLogPath))
    ensures forall i | 0 <= i < |keys| ::
              Assignment(AssignmentTokens(keys, env)[i].text) == Some((keys[i], Quoted(env[keys[i]])))
              && Plain(Quoted(env[keys[i]])) == env[keys[i]]
  {
    EntriesAreReadFirst(keys, env, tool + RedirectText(errLogPath));
    Regroup(AssignmentsText(keys, env) + "exec ", tool, RedirectText(errLogPath));
    ToolReadsBack(AssignmentTokens(keys, env) + [Word(Bare("exec"))], tool, errLogPath);
    AssignmentsMeanEntries(keys, env);
  }

  lemma ToolTokensFollow(f: Lexer, before: seq<Token>)
    requires Tokens(f).Some?
    ensures Tokens(f.(tokens := before + f.tokens)) == Some(before + Tokens(f).value)
  {
    assert forall t: Token :: before + f.tokens + [t] == before + (f.tokens + [t]);
  }
}
