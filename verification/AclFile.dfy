/** The ACL file: ACLSaveToFile writes one line for each user, ACLLoadFromFile reads them back. */
module AclFile {
  import opened Basics
  import opened AclRules
  import opened AclDescribe
  import opened AclUser

  /** A user with the words ACLDescribeUser emits for it: flags, passwords and patterns, then the command rules. */
  datatype Account = Account(name: string, head: seq<string>, rules: seq<string>, user: User)

  // ---------------------------------------------------------------------------------------------------------
  // Saving
  // ---------------------------------------------------------------------------------------------------------

  function Words(a: Account): (words: seq<string>)
    ensures words != []
  {
    ["user", a.name] + a.head + a.rules
  }

  function Lines(accounts: seq<Account>): seq<string> {
    if accounts == [] then [] else [Join(Words(accounts[0]))] + Lines(accounts[1..])
  }

  /** Every line ends in a line feed. */
  function Text(lines: seq<string>): string {
    if lines == [] then "" else lines[0] + "\n" + Text(lines[1..])
  }

  // ---------------------------------------------------------------------------------------------------------
  // Loading
  // ---------------------------------------------------------------------------------------------------------

  /** The buffer given to fgets, less the terminator. */
  const ROOM := 1023

  /** How much fgets reads at once: a line, or as much of it as there is room for. */
  function Chunk(file: string): (n: nat)
    requires file != ""
    ensures 0 < n <= |file|
  {
    var line := IndexOf(file, '\n') + 1;
    if line <= ROOM && line <= |file| then line else if ROOM < |file| then ROOM else |file|
  }

  /** The file through fgets and sdscat: of each chunk what comes before the first NUL. */
  function ReadText(file: string): string
    decreases |file|
  {
    if file == "" then ""
    else
      var n := Chunk(file);
      CString(file[..n]) + ReadText(file[n..])
  }

  function TrimLeft(s: string, cset: string): string {
    if s != "" && s[0] in cset then TrimLeft(s[1..], cset) else s
  }

  function TrimRight(s: string, cset: string): string {
    if s != "" && s[|s| - 1] in cset then TrimRight(s[..|s| - 1], cset) else s
  }

  function Trim(s: string, cset: string): string {
    TrimRight(TrimLeft(s, cset), cset)
  }

  function TrimAll(words: seq<string>): seq<string> {
    if words == [] then [] else [Trim(words[0], "\t\r\n")] + TrimAll(words[1..])
  }

  type Users = map<string, User>

  /** One line; None is an error, after which nothing at all is loaded. */
  function LoadLine(t: Table, users: Users, line: string): Option<Users> {
    var s := Trim(line, " \t\r\n");
    if s == "" then Some(users)
    else
      var argv := Split(s, ' ');
      if argv[0] != "user" || |argv| < 2 || HasSpaces(argv[1]) then None
      else
        var u := SetAll(t, NewUser(), TrimAll(argv[2..]));
        if u.None? then None else Some(users[argv[1] := u.value])
  }

  function LoadLines(t: Table, users: Users, lines: seq<string>): Option<Users>
    decreases |lines|
  {
    if lines == [] then Some(users)
    else
      var next := LoadLine(t, users, lines[0]);
      if next.None? then None else LoadLines(t, next.value, lines[1..])
  }

  /** ACLInitDefaultUser. */
  function FreshUsers(): Users {
    map["default" := User(seq(BITS, _ => true), true, map[])]
  }

  function Load(t: Table, file: string): Option<Users> {
    LoadLines(t, FreshUsers(), Split(ReadText(file), '\n'))
  }

  // ---------------------------------------------------------------------------------------------------------
  // The loops
  // ---------------------------------------------------------------------------------------------------------

  /** sdstrim. */
  method SdsTrim(s: string, cset: string) returns (r: string)
    ensures r == Trim(s, cset)
  {
    var sp, ep := 0, |s|;
    assert s[0..] == s;
    while sp < |s| && s[sp] in cset
      invariant 0 <= sp <= |s| && TrimLeft(s, cset) == TrimLeft(s[sp..], cset)
    {
      assert s[sp..][1..] == s[sp + 1..];
      sp := sp + 1;
    }
    assert s[sp..ep] == s[sp..];
    while ep > sp && s[ep - 1] in cset
      invariant sp <= ep <= |s| && Trim(s, cset) == TrimRight(s[sp..ep], cset)
    {
      assert s[sp..ep][..ep - sp - 1] == s[sp..ep - 1];
      ep := ep - 1;
    }
    r := s[sp..ep];
  }

  lemma SplitAt(s: string, start: nat, j: nat, sep: char)
    requires start <= j <= |s| && sep !in s[start..j] && (j < |s| ==> s[j] == sep)
    ensures Split(s[start..], sep) == if j == |s| then [s[start..j]] else [s[start..j]] + Split(s[j + 1..], sep)
  {
    hide IndexOf;
    var word := s[start..j];
    if j == |s| {
      assert s[start..] == word;
      FirstAt(word, "", sep);
    } else {
      FirstAt(word, s[j + 1..], sep);
      assert s[start..] == word + [sep] + s[j + 1..];
      assert s[start..][..|word|] == word && s[start..][|word| + 1..] == s[j + 1..];
    }
  }

  /** sdssplitlen with a separator of one character. */
  method SdsSplit(s: string, sep: char) returns (tokens: seq<string>)
    ensures tokens == Split(s, sep)
  {
    hide Split;
    tokens := [];
    var start := 0;
    assert s[0..] == s;
    for j := 0 to |s|
      invariant 0 <= start <= j && sep !in s[start..j]
      invariant Split(s, sep) == tokens + Split(s[start..], sep)
    {
      if s[j] == sep {
        SplitAt(s, start, j, sep);
        tokens := tokens + [s[start..j]];
        start := j + 1;
      }
    }
    SplitAt(s, start, |s|, sep);
    tokens := tokens + [s[start..|s|]];
  }

  /** One iteration of the loop of ACLLoadFromFile; the users change only if there is no error. */
  method LoadOne(t: Table, users: Users, line: string) returns (ok: bool, after: Users)
    ensures var r := LoadLine(t, users, line); ok == r.Some? && after == if ok then r.value else users
  {
    hide Trim, Split, SetUser, HasSpaces;
    after := users;
    var s := SdsTrim(line, " \t\r\n");
    if s == "" { return true, users; }
    var argv := SdsSplit(s, ' ');
    if argv[0] != "user" || |argv| < 2 || HasSpaces(argv[1]) { return false, users; }
    var u, rest := NewUser(), argv[2..];
    assert argv[2..] == rest[0..];
    for j := 0 to |rest|
      invariant |u.bits| == BITS && SetAll(t, NewUser(), TrimAll(argv[2..])) == SetAll(t, u, TrimAll(rest[j..]))
    {
      assert rest[j..][1..] == rest[j + 1..];
      var word := SdsTrim(rest[j], "\t\r\n");
      assert TrimAll(rest[j..]) == [word] + TrimAll(rest[j + 1..]);
      assert ([word] + TrimAll(rest[j + 1..]))[1..] == TrimAll(rest[j + 1..]);
      var v := SetUser(t, u, word);
      if v.None? { return false, users; }
      u := v.value;
    }
    return true, users[argv[1] := u];
  }

  /** ACLLoadFromFile: every line is looked at, and with any error the users stay as they were. */
  method LoadFromFile(t: Table, before: Users, file: string) returns (ok: bool, users: Users)
    ensures ok == Load(t, file).Some? && users == if ok then Load(t, file).value else before
  {
    hide LoadLine, Split, ReadText;
    var lines := SdsSplit(ReadText(file), '\n');
    users := FreshUsers();
    ok := true;
    assert lines[0..] == lines;
    for i := 0 to |lines|
      invariant !ok ==> Load(t, file).None?
      invariant ok ==> Load(t, file) == LoadLines(t, users, lines[i..])
    {
      assert lines[i..][1..] == lines[i + 1..];
      var fine, after := LoadOne(t, users, lines[i]);
      if !fine { ok := false; }
      users := after;
    }
    if !ok { users := before; }
  }

  lemma TextNext(accounts: seq<Account>, i: nat)
    requires i <= |accounts|
    ensures Text(Lines(accounts[i..]))
            == if i == |accounts| then "" else Join(Words(accounts[i])) + "\n" + Text(Lines(accounts[i + 1..]))
  {
    hide Join, Words;
    if i < |accounts| {
      assert accounts[i..][1..] == accounts[i + 1..];
      assert Lines(accounts[i..])[1..] == Lines(accounts[i + 1..]);
    }
  }

  /** ACLSaveToFile. */
  method SaveToFile(accounts: seq<Account>) returns (file: string)
    requires forall a <- accounts :: a.rules != []
    ensures file == Text(Lines(accounts))
  {
    hide Join, Words, Text, Lines;
    file := "";
    assert accounts[0..] == accounts;
    for i := 0 to |accounts|
      invariant Text(Lines(accounts)) == file + Text(Lines(accounts[i..]))
    {
      var a := accounts[i];
      TextNext(accounts, i);
      LineOf(a);
      var descr := RenderWords(a.head + a.rules);
      file := file + ("user " + a.name + " " + descr) + "\n";
    }
    TextNext(accounts, |accounts|);
  }

  lemma LineOf(a: Account)
    requires a.rules != []
    ensures Join(Words(a)) == "user " + a.name + " " + Join(a.head + a.rules)
  {
    hide Join;
    var rest := a.head + a.rules;
    assert Words(a)[1..] == [a.name] + rest && ([a.name] + rest)[1..] == rest;
    JoinTwo(Words(a));
    JoinTwo(Words(a)[1..]);
    assert "user" + " " == "user ";
  }

  lemma JoinTwo(words: seq<string>)
    requires 1 < |words|
    ensures Join(words) == words[0] + " " + Join(words[1..])
  {
  }

  // ---------------------------------------------------------------------------------------------------------
  // What is loaded is sturdy
  // ---------------------------------------------------------------------------------------------------------

  lemma CStringNoNul(s: string)
    ensures '\0' !in CString(s)
  {
  }

  lemma {:induction false} ReadTextNoNul(file: string)
    ensures '\0' !in ReadText(file)
    decreases |file|
  {
    hide CString, Chunk;
    if file != "" {
      var n := Chunk(file);
      CStringNoNul(file[..n]);
      ReadTextNoNul(file[n..]);
    }
  }

  /** Of a line that fits the buffer what follows a NUL is lost. */
  lemma NulEndsLine(a: string, b: string, rest: string)
    requires '\0' !in a && '\n' !in a && '\n' !in b && |a| + |b| + 2 <= ROOM
    ensures ReadText(a + "\0" + b + "\n" + rest) == a + ReadText(rest)
  {
    hide IndexOf;
    var line := a + "\0" + b;
    var file := line + "\n" + rest;
    FirstAt(line, rest, '\n');
    assert file == line + ['\n'] + rest;
    assert file[..|line| + 1] == a + ['\0'] + (b + "\n") && file[|line| + 1..] == rest;
    FirstAt(a, b + "\n", '\0');
    assert (a + ['\0'] + (b + "\n"))[..|a|] == a;
  }

  /** Of a longer line each buffer is read for itself. */
  lemma LongLineIsCut(a: string, rest: string)
    requires |a| == ROOM && '\n' !in a
    ensures ReadText(a + rest) == CString(a) + ReadText(rest)
  {
    hide IndexOf, CString;
    var file := a + rest;
    assert file[..ROOM] == a && file[ROOM..] == rest;
    assert forall j | 0 <= j < ROOM :: file[j] == a[j];
  }

  /** A line that is not blank and is not the word user, a name without white space, and rules about what exists. */
  predicate Unfit(t: Table, line: string) {
    var s := Trim(line, " \t\r\n");
    && s != ""
    && var argv := Split(s, ' ');
       || argv[0] != "user" || |argv| == 1 || HasSpaces(argv[1])
       || exists word <- argv[2..] :: !Makes(t, Parse(Trim(word, "\t\r\n")))
  }

  lemma {:induction false} AllAccepted(t: Table, u: User, words: seq<string>)
    requires |u.bits| == BITS
    ensures SetAll(t, u, TrimAll(words)).Some? <==> forall word <- words :: Makes(t, Parse(Trim(word, "\t\r\n")))
    decreases |words|
  {
    hide Parse, Obey, Makes, Trim;
    if words != [] {
      var first := Trim(words[0], "\t\r\n");
      assert TrimAll(words)[1..] == TrimAll(words[1..]);
      assert forall word :: word in words <==> word == words[0] || word in words[1..];
      AcceptedExactly(t, u, Parse(first));
      var v := SetUser(t, u, first);
      if v.Some? { AllAccepted(t, v.value, words[1..]); }
    }
  }

  lemma LineRefused(t: Table, users: Users, line: string)
    ensures LoadLine(t, users, line).None? <==> Unfit(t, line)
  {
    hide Trim, Split, Parse, Makes, HasSpaces, SetAll, TrimAll;
    var s := Trim(line, " \t\r\n");
    if s != "" {
      var argv := Split(s, ' ');
      if 2 <= |argv| { AllAccepted(t, NewUser(), argv[2..]); }
    }
  }

  lemma {:induction false} LinesRefused(t: Table, users: Users, lines: seq<string>)
    ensures LoadLines(t, users, lines).None? <==> exists line <- lines :: Unfit(t, line)
    decreases |lines|
  {
    hide LoadLine, Unfit;
    if lines != [] {
      assert forall line :: line in lines <==> line == lines[0] || line in lines[1..];
      LineRefused(t, users, lines[0]);
      var next := LoadLine(t, users, lines[0]);
      if next.Some? { LinesRefused(t, next.value, lines[1..]); }
    }
  }

  /** A file is refused if and only if one of its lines is unfit. */
  lemma RefusedExactly(t: Table, file: string)
    ensures Load(t, file).None? <==> exists line <- Split(ReadText(file), '\n') :: Unfit(t, line)
  {
    hide Unfit, LoadLines, Split, ReadText;
    LinesRefused(t, FreshUsers(), Split(ReadText(file), '\n'));
  }

  /** Without a line about it the default user may run everything. */
  lemma DefaultMayAll(t: Table, c: Command, argv: seq<string>)
    requires c.id < BITS
    ensures "default" in FreshUsers() && UserOk(t, FreshUsers()["default"]) && May(FreshUsers()["default"], c, argv)
    ensures forall id | 0 <= id < BITS :: FreshUsers()["default"].bits[id]
    ensures FreshUsers()["default"].all && Load(t, "") == Some(FreshUsers())
  {
    assert ReadText("") == "" && Split("", '\n') == [""];
    BlankLine(t, FreshUsers());
    assert [""][1..] == [];
  }

  lemma {:induction false} SplitChars(text: string, sep: char, c: char)
    requires c !in text
    ensures forall w <- Split(text, sep) :: c !in w
    decreases |text|
  {
    hide IndexOf;
    var i := IndexOf(text, sep);
    if i < |text| { SplitChars(text[i + 1..], sep, c); }
  }

  lemma {:induction false} TrimLeftChars(s: string, cset: string, c: char)
    requires c !in s
    ensures c !in TrimLeft(s, cset)
  {
    if s != "" { TrimLeftChars(s[1..], cset, c); }
  }

  lemma {:induction false} TrimRightChars(s: string, cset: string, c: char)
    requires c !in s
    ensures c !in TrimRight(s, cset)
  {
    if s != "" { TrimRightChars(s[..|s| - 1], cset, c); }
  }

  lemma {:induction false} TrimRightEnd(s: string, cset: string)
    ensures var r := TrimRight(s, cset); r != "" ==> r[|r| - 1] !in cset
  {
    if s != "" { TrimRightEnd(s[..|s| - 1], cset); }
  }

  lemma TrimChars(s: string, cset: string, c: char)
    requires c !in s
    ensures c !in Trim(s, cset)
  {
    hide TrimLeft, TrimRight;
    TrimLeftChars(s, cset, c);
    TrimRightChars(TrimLeft(s, cset), cset, c);
  }

  predicate Sturdy(word: string) { !Fragile(word) && '\0' !in word }

  lemma {:induction false} TrimAllSturdy(words: seq<string>)
    requires forall w <- words :: ' ' !in w && '\n' !in w && '\0' !in w
    ensures forall w <- TrimAll(words) :: Sturdy(w)
  {
    hide TrimLeft, TrimRight;
    if words != [] {
      var w := words[0];
      TrimChars(w, "\t\r\n", ' ');
      TrimChars(w, "\t\r\n", '\n');
      TrimChars(w, "\t\r\n", '\0');
      TrimRightEnd(TrimLeft(w, "\t\r\n"), "\t\r\n");
      TrimAllSturdy(words[1..]);
    }
  }

  /** Sturdy words never make a subcommand fragile. */
  lemma {:induction false} WordsKeepSturdy(t: Table, u: User, words: seq<string>)
    requires |u.bits| == BITS && !SubIsFragile(u) && (forall w <- words :: Sturdy(w)) && SetAll(t, u, words).Some?
    ensures !SubIsFragile(SetAll(t, u, words).value)
    decreases |words|
  {
    hide SetUser, SubIsFragile, Sturdy;
    if words != [] {
      WordKeepsSturdy(t, u, words[0]);
      WordsKeepSturdy(t, SetUser(t, u, words[0]).value, words[1..]);
    }
  }

  lemma WordKeepsSturdy(t: Table, u: User, word: string)
    requires |u.bits| == BITS && !SubIsFragile(u) && Sturdy(word) && SetUser(t, u, word).Some?
    ensures !SubIsFragile(SetUser(t, u, word).value)
  {
    hide Parse, FindCommand, FindCategory, SetCategory, HasSub, SetBit, Fragile;
    match Parse(word)
    case Category(on, name) => CategoryOnlyDrops(t.commands, u, FindCategory(t.categories, name), on);
    case AddSub(name, sub) =>
      SubOfSturdy(word);
      var id := FindCommand(t.commands, name).value.id;
      assert SubsOf(u, id) + [sub] != [];
    case Add(name) => SetBitSubs(u, FindCommand(t.commands, name).value.id, true);
    case Remove(name) => SetBitSubs(u, FindCommand(t.commands, name).value.id, false);
    case _ =>
  }

  lemma SetBitSubs(u: User, id: nat, value: bool)
    requires |u.bits| == BITS
    ensures SetBit(u, id, value).subs == u.subs
  {
  }

  lemma SubOfSturdy(word: string)
    requires Sturdy(word) && Parse(word).AddSub? && Parse(word).sub != ""
    ensures !Fragile(Parse(word).sub)
  {
    hide Same, IsOther;
    NoNul(word);
    var sub := Parse(word).sub;
    assert sub == word[|word| - |sub|..];
    assert sub[|sub| - 1] == word[|word| - 1];
  }

  lemma {:induction false} CategoryOnlyDrops(commands: seq<Command>, u: User, category: nat, value: bool)
    requires |u.bits| == BITS && !SubIsFragile(u)
    ensures !SubIsFragile(SetCategory(commands, u, category, value))
    decreases |commands|
  {
    hide Fragile;
    if commands != [] {
      var c := commands[0];
      var u1 := if !c.isModule && category in c.categories then DropSubs(SetBit(u, c.id, value), c.id) else u;
      assert !SubIsFragile(u1);
      CategoryOnlyDrops(commands[1..], u1, category, value);
    }
  }

  ghost predicate AllSturdy(users: Users) {
    forall n <- users :: !SubIsFragile(users[n])
  }

  lemma LineIsSturdy(t: Table, users: Users, line: string)
    requires AllSturdy(users) && '\n' !in line && '\0' !in line && LoadLine(t, users, line).Some?
    ensures AllSturdy(LoadLine(t, users, line).value)
  {
    hide Trim, SetAll, SubIsFragile, Sturdy, HasSpaces, Split;
    var s := Trim(line, " \t\r\n");
    if s != "" {
      TrimChars(line, " \t\r\n", '\n');
      TrimChars(line, " \t\r\n", '\0');
      SplitChars(s, ' ', '\n');
      SplitChars(s, ' ', '\0');
      var argv := Split(s, ' ');
      TrimAllSturdy(argv[2..]);
      NewUserIsSturdy();
      WordsKeepSturdy(t, NewUser(), TrimAll(argv[2..]));
    }
  }

  lemma NewUserIsSturdy()
    ensures !SubIsFragile(NewUser())
  {
  }

  lemma {:induction false} LinesAreSturdy(t: Table, users: Users, lines: seq<string>)
    requires AllSturdy(users) && (forall l <- lines :: '\n' !in l && '\0' !in l) && LoadLines(t, users, lines).Some?
    ensures AllSturdy(LoadLines(t, users, lines).value)
    decreases |lines|
  {
    hide LoadLine, AllSturdy;
    if lines != [] {
      LineIsSturdy(t, users, lines[0]);
      LinesAreSturdy(t, LoadLine(t, users, lines[0]).value, lines[1..]);
    }
  }

  /** Whatever the file, no user loaded from it has a fragile subcommand. */
  lemma LoadedIsSturdy(t: Table, file: string)
    requires Load(t, file).Some?
    ensures AllSturdy(Load(t, file).value)
  {
    hide LoadLines, Split, ReadText;
    ReadTextNoNul(file);
    SplitChars(ReadText(file), '\n', '\0');
    LinesAreSturdy(t, FreshUsers(), Split(ReadText(file), '\n'));
  }

  // ---------------------------------------------------------------------------------------------------------
  // Saving and loading
  // ---------------------------------------------------------------------------------------------------------

  /** User names and patterns are checked for spaces when they are set, and the other words of the head never have any. */
  ghost predicate AccountOk(t: Table, a: Account) {
    && !HasSpaces(a.name)
    && (forall w <- a.head :: w != "" && !HasSpaces(w) && Parse(w) == Other)
    && Describes(t, a.user, a.rules)
  }

  ghost predicate AccountsOk(t: Table, accounts: seq<Account>) {
    && (forall a <- accounts :: AccountOk(t, a))
    && (forall i, j | 0 <= i < j < |accounts| :: accounts[i].name != accounts[j].name)
  }

  /** The user's bitmap and subcommands are there under its name. */
  predicate Holds(users: Users, a: Account) {
    a.name in users && users[a.name].bits == a.user.bits && users[a.name].subs == a.user.subs
  }

  lemma {:induction false} JoinAvoids(words: seq<string>, c: char)
    requires words != [] && c != ' ' && forall w <- words :: c !in w
    ensures c !in Join(words)
  {
    if |words| > 1 { JoinAvoids(words[1..], c); }
  }

  lemma {:induction false} JoinEnd(words: seq<string>)
    requires words != [] && words[|words| - 1] != ""
    ensures var s, w := Join(words), words[|words| - 1]; s != "" && s[|s| - 1] == w[|w| - 1]
  {
    if |words| > 1 { JoinEnd(words[1..]); }
  }

  lemma WordsOk(t: Table, a: Account)
    requires AccountOk(t, a) && !SubIsFragile(a.user)
    ensures a.rules != [] && forall w <- Words(a) :: Sturdy(w)
    ensures forall w <- a.head + a.rules :: w != "" && Sturdy(w) && !IsSpace(w[0])
  {
    hide SubIsFragile, Fragile, HasSpaces, Parse;
    NoSpacesIsSturdy(a.name);
    assert !Fragile("user") by { assert !HasSpaces("user") by { NoSpaceInUser(); } NoSpacesIsSturdy("user"); }
    forall w <- a.head + a.rules ensures w != "" && Sturdy(w) && !IsSpace(w[0]) {
      if w in a.head { NoSpacesIsSturdy(w); } else { assert Signed(w); }
    }
    assert forall w <- Words(a) :: w == "user" || w == a.name || w in a.head + a.rules;
  }

  lemma NoSpaceInUser()
    ensures !HasSpaces("user")
  {
  }

  lemma TrimNothing(s: string, cset: string)
    requires s != "" && s[0] !in cset && s[|s| - 1] !in cset
    ensures Trim(s, cset) == s
  {
  }

  lemma {:induction false} TrimAllNothing(words: seq<string>)
    requires forall w <- words :: w != "" && Sturdy(w) && !IsSpace(w[0])
    ensures TrimAll(words) == words
  {
    hide Trim;
    if words != [] {
      assert words[0] in words && forall w <- words[1..] :: w in words;
      TrimNothing(words[0], "\t\r\n");
      TrimAllNothing(words[1..]);
    }
  }

  lemma {:induction false} HeadSetsNothing(t: Table, u: User, head: seq<string>)
    requires |u.bits| == BITS && forall w <- head :: Parse(w) == Other
    ensures SetAll(t, u, head) == Some(u)
    decreases |head|
  {
    hide Parse;
    if head != [] { HeadSetsNothing(t, u, head[1..]); }
  }

  lemma LineLoads(t: Table, users: Users, a: Account) returns (v: User)
    requires AccountOk(t, a) && !SubIsFragile(a.user)
    ensures LoadLine(t, users, Join(Words(a))) == Some(users[a.name := v])
    ensures v.bits == a.user.bits && v.subs == a.user.subs
    ensures '\n' !in Join(Words(a)) && '\0' !in Join(Words(a))
  {
    hide SubIsFragile, Parse, SetAll, Join, Split, Trim, HasSpaces;
    WordsOk(t, a);
    var words, rest := Words(a), a.head + a.rules;
    var line := Join(words);
    JoinAvoids(words, '\n');
    JoinAvoids(words, '\0');
    var last := words[|words| - 1];
    assert last == rest[|rest| - 1] && last in rest && last in words;
    JoinEnd(words);
    LineOf(a);
    assert line[0] == 'u';
    TrimNothing(line, " \t\r\n");
    SplitJoin(words);
    assert words[0] == "user" && words[1] == a.name && words[2..] == rest;
    TrimAllNothing(rest);
    HeadSetsNothing(t, NewUser(), a.head);
    SetAllAppend(t, NewUser(), a.head, a.rules);
    v :| Gives(t, a.rules, v) && v.bits == a.user.bits && v.subs == a.user.subs;
  }

  function Names(accounts: seq<Account>): set<string> {
    set a | a in accounts :: a.name
  }

  lemma {:induction false} LinesLoad(t: Table, users: Users, accounts: seq<Account>)
    requires AccountsOk(t, accounts) && forall a <- accounts :: !SubIsFragile(a.user)
    ensures var m := LoadLines(t, users, Lines(accounts) + [""]);
            && m.Some? && m.value.Keys == users.Keys + Names(accounts)
            && (forall a <- accounts :: Holds(m.value, a))
            && (forall n | n in users && n !in Names(accounts) :: m.value[n] == users[n])
    ensures forall l <- Lines(accounts) :: '\n' !in l && '\0' !in l
    decreases |accounts|
  {
    hide AccountOk, SubIsFragile, LoadLine, Join, Words, Names;
    if accounts == [] {
      BlankLine(t, users);
      assert Lines(accounts) + [""] == [""] && [""][1..] == [];
      NoNames();
    } else {
      var a, rest := accounts[0], accounts[1..];
      var v := LineLoads(t, users, a);
      var users1 := users[a.name := v];
      LinesLoad(t, users1, rest);
      var lines := Lines(accounts) + [""];
      assert lines[0] == Join(Words(a)) && lines[1..] == Lines(rest) + [""];
      NamesNext(accounts);
    }
  }

  lemma NoNames()
    ensures Names([]) == {}
  {
  }

  lemma NamesNext(accounts: seq<Account>)
    requires accounts != [] && forall i, j | 0 <= i < j < |accounts| :: accounts[i].name != accounts[j].name
    ensures Names(accounts) == {accounts[0].name} + Names(accounts[1..]) && accounts[0].name !in Names(accounts[1..])
  {
    forall a <- accounts[1..] ensures a.name != accounts[0].name {
      var i :| 0 <= i < |accounts| - 1 && accounts[1..][i] == a;
      assert accounts[i + 1] == a;
    }
  }

  lemma BlankLine(t: Table, users: Users)
    ensures LoadLine(t, users, "") == Some(users)
  {
  }

  lemma {:induction false} SplitText(lines: seq<string>)
    requires forall l <- lines :: '\n' !in l
    ensures Split(Text(lines), '\n') == lines + [""]
  {
    hide IndexOf;
    if lines == [] {
      FirstAt("", "", '\n');
    } else {
      var s, rest := Text(lines), Text(lines[1..]);
      SplitText(lines[1..]);
      FirstAt(lines[0], rest, '\n');
      assert s[..|lines[0]|] == lines[0] && s[|lines[0]| + 1..] == rest;
    }
  }

  lemma {:induction false} TextNoNul(lines: seq<string>)
    requires forall l <- lines :: '\0' !in l
    ensures '\0' !in Text(lines)
  {
    if lines != [] { TextNoNul(lines[1..]); }
  }

  lemma {:induction false} ReadsWhole(file: string)
    requires '\0' !in file
    ensures ReadText(file) == file
    decreases |file|
  {
    hide CString, Chunk;
    if file != "" {
      var n := Chunk(file);
      NoNul(file[..n]);
      ReadsWhole(file[n..]);
      assert file == file[..n] + file[n..];
    }
  }

  /** Users without fragile subcommands all come back, and no others but the default user. */
  lemma SavedIsLoaded(t: Table, accounts: seq<Account>)
    requires AccountsOk(t, accounts) && forall a <- accounts :: !SubIsFragile(a.user)
    ensures var m := Load(t, Text(Lines(accounts)));
            && m.Some? && m.value.Keys == {"default"} + Names(accounts)
            && forall a <- accounts :: Holds(m.value, a)
  {
    hide AccountsOk, SubIsFragile, LoadLines, Split, ReadText, Text, Lines;
    LinesLoad(t, FreshUsers(), accounts);
    SplitText(Lines(accounts));
    TextNoNul(Lines(accounts));
    ReadsWhole(Text(Lines(accounts)));
  }

  /** Saving and loading brings back the commands and subcommands of every user if and only if no user has an allowed
      subcommand with a space or a line feed in it, or with a tab or a carriage return at its end. */
  lemma FileRoundTrip(t: Table, accounts: seq<Account>)
    requires AccountsOk(t, accounts)
    ensures var m := Load(t, Text(Lines(accounts)));
            (m.Some? && forall a <- accounts :: Holds(m.value, a)) <==> forall a <- accounts :: !SubIsFragile(a.user)
  {
    hide AccountsOk, SubIsFragile, Load, Text, Lines;
    var m := Load(t, Text(Lines(accounts)));
    if forall a <- accounts :: !SubIsFragile(a.user) {
      SavedIsLoaded(t, accounts);
    } else if m.Some? && forall a <- accounts :: Holds(m.value, a) {
      var a :| a in accounts && SubIsFragile(a.user);
      LoadedIsSturdy(t, Text(Lines(accounts)));
      SameSubs(m.value[a.name], a.user);
    }
  }

  lemma SameSubs(u: User, v: User)
    requires u.subs == v.subs
    ensures SubIsFragile(u) == SubIsFragile(v)
  {
  }

  /** A user that ACL SETUSER accepts and an ACL file does not bring back: a line feed in a subcommand. */
  lemma LineFeedIsLost(head: seq<string>) returns (t: Table, u: User, rules: seq<string>)
    requires forall w <- head :: w != "" && !HasSpaces(w) && Parse(w) == Other
    ensures TableOk(t) && SetAll(t, NewUser(), ["+debug|a\nb"]) == Some(u) && Describes(t, u, rules)
    ensures var m := Load(t, Text(Lines([Account("bob", head, rules, u)])));
            !(m.Some? && Holds(m.value, Account("bob", head, rules, u)))
  {
    hide Parse, Load, Text, Lines, HasSpaces, SetAll, TableOk, Describes, SubIsFragile, NewUser, Join;
    var c := Command("debug", 0, {}, false);
    t := Table([c], []);
    var word := SubWord("debug", "a\nb");
    assert word == "+debug|a\nb";
    u := NewUser().(subs := map[0 := ["a\nb"]]);
    rules := ["-@all", word];
    DebugTable(t);
    DebugUser(t, u);
    var a := Account("bob", head, rules, u);
    DebugIsFragile(u);
    NoSpaceInBob();
    assert AccountsOk(t, [a]);
    FileRoundTrip(t, [a]);
    assert a in [a];
  }

  lemma NoSpaceInBob()
    ensures !HasSpaces("bob")
  {
  }

  lemma DebugTable(t: Table)
    requires t == Table([Command("debug", 0, {}, false)], [])
    ensures TableOk(t)
  {
    assert !HasSpaces("debug");
  }

  lemma DebugUser(t: Table, u: User)
    requires t == Table([Command("debug", 0, {}, false)], []) && TableOk(t)
    requires u == NewUser().(subs := map[0 := ["a\nb"]])
    ensures SetAll(t, NewUser(), [SubWord("debug", "a\nb")]) == Some(u)
    ensures Describes(t, u, ["-@all", SubWord("debug", "a\nb")])
  {
    hide Parse, TableOk, UserOk, SetUser, SubWord, SetAll, Gives;
    var word := SubWord("debug", "a\nb");
    DebugSets(t, u);
    SetAllOne(t, NewUser(), word);
    FirstWord(t, false);
    GivesMore(t, ["-@all"], NewUser(), [word], u);
    assert ["-@all"] + [word] == ["-@all", word];
    assert Signed(word) by { WordIsSigned("debug", "a\nb"); }
    DebugIsFragile(u);
    assert Gives(t, ["-@all", word], u);
  }

  lemma DebugIsFragile(u: User)
    requires u.subs == map[0 := ["a\nb"]]
    ensures SubIsFragile(u)
  {
    assert u.subs[0][0] == "a\nb" && '\n' in "a\nb";
  }

  lemma WordIsSigned(name: string, sub: string)
    requires '\0' !in name && '\0' !in sub
    ensures Signed(SubWord(name, sub))
  {
  }

  lemma DebugSets(t: Table, u: User)
    requires t == Table([Command("debug", 0, {}, false)], []) && TableOk(t)
    requires u == NewUser().(subs := map[0 := ["a\nb"]])
    ensures SetUser(t, NewUser(), SubWord("debug", "a\nb")) == Some(u) && UserOk(t, u)
  {
    hide Parse, TableOk, FindCommand, SubWord;
    var c := t.commands[0];
    ParseSub("debug", "a\nb");
    FindsItself(t, c);
    assert SubsOf(NewUser(), 0) + ["a\nb"] == ["a\nb"] && NewUser().subs[0 := ["a\nb"]] == u.subs;
    NewUserOk(t);
    SubKeeps(t, NewUser(), c, "a\nb");
  }
}
