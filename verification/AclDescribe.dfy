/** The rules ACLDescribeUserCommandRules emits, as words and as text, and what they mean to ACLSetUser. */
module AclDescribe {
  import opened Basics
  import opened AclRules

  // ---------------------------------------------------------------------------------------------------------
  // The words
  // ---------------------------------------------------------------------------------------------------------

  function Sign(on: bool): string { if on then "+" else "-" }

  function CategoryWord(on: bool, name: string): string { Sign(on) + "@" + name }

  function CommandWord(on: bool, name: string): string { Sign(on) + name }

  function SubWord(name: string, sub: string): string { "+" + name + "|" + sub }

  function SubWords(name: string, subs: seq<string>): seq<string> {
    if subs == [] then [] else [SubWord(name, subs[0])] + SubWords(name, subs[1..])
  }

  /** The words that bring one command into line: the bit where it differs, then the subcommands. */
  function FixWords(u: User, c: Command, bit: bool): seq<string>
    requires c.id < |u.bits|
  {
    (if u.bits[c.id] != bit then [CommandWord(u.bits[c.id], c.name)] else [])
    + (if u.bits[c.id] then [] else SubWords(c.name, SubsOf(u, c.id)))
  }

  lemma {:induction false} LowerAppend(a: string, b: string)
    ensures Lower(a + b) == Lower(a) + Lower(b)
  {
    if a == "" {
      assert a + b == b;
    } else {
      assert (a + b)[1..] == a[1..] + b;
      LowerAppend(a[1..], b);
    }
  }

  lemma LowerFirst(a: string)
    requires a != ""
    ensures Lower(a)[0] == LowerChar(a[0])
  {
  }

  lemma SignedIsNoKeyword(op: string)
    requires op != "" && (op[0] == '+' || op[0] == '-')
    ensures !Same(op, "allcommands") && !Same(op, "nocommands") && !Same(op, "reset")
    ensures op[0] == '+' ==> !Same(op, "-@all")
    ensures op[0] == '-' ==> !Same(op, "+@all")
  {
    hide Lower;
    LowerFirst(op);
    LowerFirst("allcommands");
    LowerFirst("nocommands");
    LowerFirst("reset");
    LowerFirst("+@all");
    LowerFirst("-@all");
  }

  /** A signed word is +@all or -@all only when the rest of it is @all. */
  lemma SignedAll(on: bool, rest: string)
    ensures Same(Sign(on) + rest, Sign(on) + "@all") ==> Lower(rest) == Lower("@all")
  {
    hide Lower;
    LowerAppend(Sign(on), rest);
    LowerAppend(Sign(on), "@all");
    assert Lower(rest) == (Lower(Sign(on)) + Lower(rest))[1..];
    assert Lower("@all") == (Lower(Sign(on)) + Lower("@all"))[1..];
  }

  lemma NoNul(s: string)
    requires '\0' !in s
    ensures CString(s) == s
  {
  }

  lemma AtAll(name: string)
    ensures Lower("@" + name) == Lower("@all") ==> Same(name, "all")
  {
    hide Lower;
    LowerAppend("@", name);
    LowerAppend("@", "all");
    assert "@all" == "@" + "all";
    assert Lower(name) == (Lower("@") + Lower(name))[1..];
    assert Lower("all") == (Lower("@") + Lower("all"))[1..];
  }

  lemma ParseCategory(on: bool, name: string)
    requires !Same(name, "all") && '\0' !in name
    ensures Parse(CategoryWord(on, name)) == Category(on, name)
  {
    hide Lower, CString, IsOther, IndexOf;
    var op := CategoryWord(on, name);
    NoNul(op);
    SignedIsNoKeyword(op);
    assert op == Sign(on) + ("@" + name);
    assert "+@all" == Sign(true) + "@all" && "-@all" == Sign(false) + "@all";
    SignedAll(on, "@" + name);
    AtAll(name);
    assert op[2..] == name;
  }

  /** Neither a command name nor a name with a subcommand can be taken for @all or a category. */
  lemma NamedWord(on: bool, rest: string)
    requires rest != "" && rest[0] != '@'
    ensures !Same(Sign(on) + rest, "+@all") && !Same(Sign(on) + rest, "-@all")
  {
    hide Lower;
    SignedIsNoKeyword(Sign(on) + rest);
    assert "+@all" == Sign(true) + "@all" && "-@all" == Sign(false) + "@all";
    SignedAll(on, rest);
    LowerFirst(rest);
    LowerFirst("@all");
  }

  lemma NoBar(name: string)
    requires '|' !in name
    ensures IndexOf(name, '|') == |name|
  {
  }

  lemma FirstBar(name: string, sub: string)
    requires '|' !in name
    ensures IndexOf(name + "|" + sub, '|') == |name|
  {
    var s := name + "|" + sub;
    var i := IndexOf(s, '|');
    assert s[|name|] == '|';
  }

  lemma ParseCommand(on: bool, name: string)
    requires name != "" && name[0] != '@' && '|' !in name && '\0' !in name
    ensures Parse(CommandWord(on, name)) == if on then Add(name) else Remove(name)
  {
    hide Lower, IndexOf, CString;
    var op := CommandWord(on, name);
    NoNul(op);
    SignedIsNoKeyword(op);
    NamedWord(on, name);
    NoBar(name);
    assert op[1..] == name;
  }

  lemma ParseSub(name: string, sub: string)
    requires name != "" && name[0] != '@' && '|' !in name && '\0' !in name && '\0' !in sub
    ensures Parse(SubWord(name, sub)) == AddSub(name, sub)
  {
    hide Lower, IndexOf, CString;
    var op := SubWord(name, sub);
    NoNul(op);
    var rest := name + "|" + sub;
    assert op == Sign(true) + rest && op[1..] == rest;
    SignedIsNoKeyword(op);
    NamedWord(true, rest);
    FirstBar(name, sub);
    assert rest[..|name|] == name && rest[|name| + 1..] == sub;
  }

  // ---------------------------------------------------------------------------------------------------------
  // Finding what a word names
  // ---------------------------------------------------------------------------------------------------------

  lemma FindsItself(t: Table, c: Command)
    requires TableOk(t) && c in t.commands
    ensures FindCommand(t.commands, c.name) == Some(c)
  {
    hide Same, NameOk;
    var r := FindCommand(t.commands, c.name);
    assert r.Some? by { SameRefl(c.name); }
    var i :| 0 <= i < |t.commands| && t.commands[i] == c;
    var j :| 0 <= j < |t.commands| && t.commands[j] == r.value;
    SameSym(r.value.name, c.name);
  }

  lemma SameRefl(a: string)
    ensures Same(a, a)
  {
  }

  lemma SameSym(a: string, b: string)
    ensures Same(a, b) == Same(b, a)
  {
  }

  lemma FindsCategory(t: Table, j: nat)
    requires TableOk(t) && j < |t.categories|
    ensures FindCategory(t.categories, t.categories[j]) == j
  {
    hide Same, NameOk;
    SameRefl(t.categories[j]);
  }

  // ---------------------------------------------------------------------------------------------------------
  // Applying the words
  // ---------------------------------------------------------------------------------------------------------

  lemma {:induction false} SetAllAppend(t: Table, u: User, a: seq<string>, b: seq<string>)
    requires |u.bits| == BITS
    ensures SetAll(t, u, a + b) == (if SetAll(t, u, a).None? then None else SetAll(t, SetAll(t, u, a).value, b))
    decreases |a|
  {
    hide SetUser;
    if a == [] {
      assert a + b == b;
    } else {
      assert (a + b)[1..] == a[1..] + b && (a + b)[0] == a[0];
      if SetUser(t, u, a[0]).Some? {
        SetAllAppend(t, SetUser(t, u, a[0]).value, a[1..], b);
      }
    }
  }

  lemma SetAllOne(t: Table, u: User, op: string)
    requires |u.bits| == BITS
    ensures SetAll(t, u, [op]) == SetUser(t, u, op)
  {
    hide SetUser;
    assert [op][1..] == [];
  }

  lemma SubAppended(t: Table, u: User, c: Command, subs: seq<string>, k: nat)
    requires TableOk(t) && c in t.commands && |u.bits| == BITS && !u.bits[c.id]
    requires k < |subs| && "" !in subs && (forall sub <- subs :: '\0' !in sub)
    requires forall i, j | 0 <= i < j < |subs| :: !Same(subs[i], subs[j])
    requires SubsOf(u, c.id) == subs[..k]
    ensures SetUser(t, u, SubWord(c.name, subs[k])) == Some(u.(subs := u.subs[c.id := subs[..k + 1]]))
  {
    hide Same, SubWord, FindCommand, Parse;
    TableName(t, c);
    ParseSub(c.name, subs[k]);
    FindsItself(t, c);
    assert !HasSub(subs[..k], subs[k]);
    assert subs[..k] + [subs[k]] == subs[..k + 1];
  }

  /** Subcommands that are distinct words are appended one by one. */
  lemma {:induction false} SubsAppended(t: Table, u: User, c: Command, subs: seq<string>, k: nat)
    requires TableOk(t) && c in t.commands && |u.bits| == BITS && !u.bits[c.id]
    requires k <= |subs| && "" !in subs && (forall sub <- subs :: '\0' !in sub)
    requires forall i, j | 0 <= i < j < |subs| :: !Same(subs[i], subs[j])
    requires SubsOf(u, c.id) == subs[..k]
    ensures SetAll(t, u, SubWords(c.name, subs[k..]))
            == Some(if k == |subs| then u else u.(subs := u.subs[c.id := subs]))
    decreases |subs| - k
  {
    hide Same, SubWord, SetUser, TableOk;
    TableId(t, c);
    if k < |subs| {
      var word, rest := SubWord(c.name, subs[k]), SubWords(c.name, subs[k + 1..]);
      var u1 := u.(subs := u.subs[c.id := subs[..k + 1]]);
      SubAppended(t, u, c, subs, k);
      assert subs[k..][1..] == subs[k + 1..];
      assert SubWords(c.name, subs[k..]) == [word] + rest;
      SubsAppended(t, u1, c, subs, k + 1);
      SetAllCons(t, u, word, rest);
      assert subs[..|subs|] == subs;
      assert u1.subs[c.id := subs] == u.subs[c.id := subs];
    }
  }

  lemma SetAllCons(t: Table, u: User, op: string, rest: seq<string>)
    requires |u.bits| == BITS && SetUser(t, u, op).Some?
    ensures SetAll(t, u, [op] + rest) == SetAll(t, SetUser(t, u, op).value, rest)
  {
    hide SetUser;
    assert ([op] + rest)[1..] == rest;
  }

  lemma TableName(t: Table, c: Command)
    requires TableOk(t) && c in t.commands
    ensures c.name != "" && c.name[0] != '@' && '|' !in c.name && '\0' !in c.name && !HasSpaces(c.name) && c.id < RESERVED
  {
  }

  /** The words for one command give it the bit and the subcommands the user has, and change nothing else. */
  lemma FixApplied(t: Table, u: User, v: User, c: Command)
    requires TableOk(t) && UserOk(t, u) && UserOk(t, v) && c in t.commands && c.id !in v.subs
    ensures var w := SetAll(t, v, FixWords(u, c, v.bits[c.id]));
            && w.Some?
            && w.value.bits == v.bits[c.id := u.bits[c.id]]
            && w.value.subs == (if c.id in u.subs then v.subs[c.id := u.subs[c.id]] else v.subs)
  {
    hide Same, Parse, FindCommand, SubWords, IsId;
    TableName(t, c);
    var bit := u.bits[c.id];
    var flip := if bit != v.bits[c.id] then [CommandWord(bit, c.name)] else [];
    var v1 := if bit != v.bits[c.id] then DropSubs(SetBit(v, c.id, bit), c.id) else v;
    assert SetAll(t, v, flip) == Some(v1) by {
      ParseCommand(bit, c.name);
      FindsItself(t, c);
      SetAllOne(t, v, CommandWord(bit, c.name));
    }
    assert v.subs - {c.id} == v.subs;
    var subs := SubsOf(u, c.id);
    SetAllAppend(t, v, flip, if bit then [] else SubWords(c.name, subs));
    if !bit {
      assert subs[..0] == [] && subs[0..] == subs;
      SubsAppended(t, v1, c, subs, 0);
    }
  }

  // ---------------------------------------------------------------------------------------------------------
  // As text
  // ---------------------------------------------------------------------------------------------------------

  /** Every word followed by a space, as the decompiler builds it. */
  function Spaced(words: seq<string>): string {
    if words == [] then "" else words[0] + " " + Spaced(words[1..])
  }

  /** The same without the last space. */
  function Join(words: seq<string>): string
    requires words != []
  {
    if |words| == 1 then words[0] else words[0] + " " + Join(words[1..])
  }

  /** Text that does not survive an ACL file, whose loader splits at line feeds and spaces and trims tabs and carriage
      returns off the ends of words. */
  predicate Fragile(s: string) {
    ' ' in s || '\n' in s || (s != "" && s[|s| - 1] in "\t\r")
  }

  /** A word about commands, without NUL. */
  predicate Signed(word: string) {
    word != "" && (word[0] == '+' || word[0] == '-') && '\0' !in word
  }

  lemma NoSpacesIsSturdy(s: string)
    requires !HasSpaces(s)
    ensures !Fragile(s) && '\0' !in s && forall c <- s :: !IsSpace(c)
  {
  }

  /** The last part of a word decides. */
  lemma FragileEnd(a: string, b: string)
    requires !HasSpaces(a) && b != ""
    ensures Fragile(a + b) <==> Fragile(b)
  {
    NoSpacesIsSturdy(a);
    assert (a + b)[|a + b| - 1] == b[|b| - 1];
    assert forall c :: c in a + b <==> c in a || c in b;
  }

  /** sdssplitlen at one character. */
  function Split(text: string, sep: char): (words: seq<string>)
    ensures words != [] && forall w <- words :: sep !in w
    decreases |text|
  {
    var i := IndexOf(text, sep);
    if i == |text| then [text] else [text[..i]] + Split(text[i + 1..], sep)
  }

  lemma {:induction false} SpacedIsJoin(words: seq<string>)
    requires words != []
    ensures Spaced(words) == Join(words) + " "
  {
    if |words| > 1 {
      SpacedIsJoin(words[1..]);
    } else {
      assert words[1..] == [];
    }
  }

  lemma {:induction false} SpacedAppend(a: seq<string>, w: string)
    ensures Spaced(a + [w]) == Spaced(a) + (w + " ")
  {
    if a == [] {
      assert a + [w] == [w] && [w][1..] == [];
    } else {
      assert (a + [w])[1..] == a[1..] + [w];
      SpacedAppend(a[1..], w);
    }
  }

  lemma {:induction false} SplitJoin(words: seq<string>)
    requires words != [] && forall w <- words :: ' ' !in w
    ensures Split(Join(words), ' ') == words
  {
    hide IndexOf;
    var first := words[0];
    if |words| == 1 {
      assert words == [first];
      FirstAt(first, "", ' ');
    } else {
      var rest := Join(words[1..]);
      SplitJoin(words[1..]);
      FirstAt(first, rest, ' ');
      assert (first + " " + rest)[..|first|] == first && (first + " " + rest)[|first| + 1..] == rest;
      assert words == [first] + words[1..];
    }
  }

  lemma FirstAt(word: string, rest: string, sep: char)
    requires sep !in word
    ensures IndexOf(word, sep) == |word| == IndexOf(word + [sep] + rest, sep)
  {
    var s := word + [sep] + rest;
    var i := IndexOf(s, sep);
    assert forall j | 0 <= j < |word| :: s[j] == word[j];
    assert s[|word|] == sep;
  }

  method RenderWords(words: seq<string>) returns (text: string)
    requires words != []
    ensures text == Join(words)
  {
    hide Join, Spaced;
    text := "";
    NoWords();
    assert words[..0] == [];
    for i := 0 to |words|
      invariant text == Spaced(words[..i])
    {
      SpacedAppend(words[..i], words[i]);
      assert words[..i + 1] == words[..i] + [words[i]];
      text := text + (words[i] + " ");
    }
    assert words[..|words|] == words;
    SpacedIsJoin(words);
    text := text[..|text| - 1];
  }

  lemma NoWords()
    ensures Spaced([]) == ""
  {
  }
}
