/** The command part of ACL rules: what ACLSetUser does to a user's command bitmap and subcommand lists, and what the
    permission check makes of them. */
module AclRules {
  import opened Basics

  /** An entry of the original command table; `categories` are indices into the category table. */
  datatype Command = Command(name: string, id: nat, categories: set<nat>, isModule: bool)

  datatype Table = Table(commands: seq<Command>, categories: seq<string>)

  /** USER_COMMAND_BITS_COUNT; the last bit is never given to a command. */
  const BITS: nat := 1024
  const RESERVED: nat := 1023

  /** The command bitmap, the ALLCOMMANDS flag, and the allowed subcommands of commands that are not allowed. */
  datatype User = User(bits: seq<bool>, all: bool, subs: map<nat, seq<string>>)

  datatype Rule =
    | All | Nothing
    | Add(name: string) | AddSub(name: string, sub: string) | Remove(name: string)
    | Category(on: bool, name: string)
    | Other    // flags, passwords, keys and channels: nothing about commands
    | Unknown  // no rule at all

  // ---------------------------------------------------------------------------------------------------------
  // Text
  // ---------------------------------------------------------------------------------------------------------

  function LowerChar(c: char): char {
    if 'A' <= c <= 'Z' then c - 'A' + 'a' else c
  }

  function Lower(s: string): (r: string)
    ensures |r| == |s|
  {
    if s == "" then "" else [LowerChar(s[0])] + Lower(s[1..])
  }

  /** The letters of either case are the same, and no other characters are. */
  lemma LettersMatch(a: char, b: char)
    ensures LowerChar(a) == LowerChar(b)
            <==> || a == b
                 || ('A' <= a <= 'Z' && b as int == a as int + 32)
                 || ('A' <= b <= 'Z' && a as int == b as int + 32)
  {
  }

  /** strcasecmp says equal. */
  predicate Same(a: string, b: string) {
    Lower(a) == Lower(b)
  }

  /** strchr, with the length for NULL. */
  function IndexOf(s: string, c: char): (i: nat)
    ensures i <= |s| && (i < |s| ==> s[i] == c) && (forall j | 0 <= j < i :: s[j] != c)
  {
    if s == "" || s[0] == c then 0
    else
      var i := IndexOf(s[1..], c);
      assert forall j | 0 <= j < i + 1 :: s[j] == (if j == 0 then s[0] else s[1..][j - 1]);
      i + 1
  }

  /** What a C function sees of a string: all up to the first NUL. */
  function CString(s: string): string { s[..IndexOf(s, '\0')] }

  const OTHER_WORDS := ["on", "off", "skip-sanitize-payload", "sanitize-payload", "allkeys", "resetkeys", "allchannels",
                        "resetchannels", "nopass", "resetpass"]

  /** Rules about passwords, key and channel patterns, and flags. */
  predicate IsOther(s: string)
    requires s != ""
  {
    s[0] in ">#<!~&" || exists i | 0 <= i < |OTHER_WORDS| :: Same(s, OTHER_WORDS[i])
  }

  function ParseText(s: string): Rule {
    if Same(s, "allcommands") || Same(s, "+@all") then All
    else if Same(s, "nocommands") || Same(s, "-@all") || Same(s, "reset") then Nothing
    else if s == "" then Unknown
    else if s[0] != '+' && s[0] != '-' then (if IsOther(s) then Other else Unknown)
    else if 1 < |s| && s[1] == '@' then Category(s[0] == '+', s[2..])
    else if s[0] == '-' then Remove(s[1..])
    else
      var name := s[1..];
      var bar := IndexOf(name, '|');
      if bar == |name| then Add(name) else AddSub(name[..bar], name[bar + 1..])
  }

  /** The empty string is a rule that does nothing. */
  function Parse(op: string): Rule {
    if op == "" then Other else ParseText(CString(op))
  }

  // ---------------------------------------------------------------------------------------------------------
  // Rules
  // ---------------------------------------------------------------------------------------------------------

  /** ACLLookupCommand. */
  function FindCommand(commands: seq<Command>, name: string): (r: Option<Command>)
    ensures r.Some? ==> r.value in commands && Same(r.value.name, name)
    ensures r.None? ==> forall c <- commands :: !Same(c.name, name)
  {
    if commands == [] then None
    else if Same(commands[0].name, name) then Some(commands[0])
    else FindCommand(commands[1..], name)
  }

  /** ACLGetCommandCategoryFlagByName, with the length for no match. */
  function FindCategory(names: seq<string>, name: string): (j: nat)
    ensures j <= |names| && (j < |names| ==> Same(names[j], name))
    ensures forall i | 0 <= i < j :: !Same(names[i], name)
  {
    if names == [] || Same(names[0], name) then 0
    else
      var j := FindCategory(names[1..], name);
      assert forall i | 0 <= i < j + 1 :: names[i] == (if i == 0 then names[0] else names[1..][i - 1]);
      j + 1
  }

  function SetBit(u: User, id: nat, value: bool): User
    requires |u.bits| == BITS
  {
    if id >= BITS then u
    else u.(bits := u.bits[id := value], all := u.all && value)
  }

  function DropSubs(u: User, id: nat): User {
    u.(subs := u.subs - {id})
  }

  /** ACLSetUserCommandBitsForCategory over the table. */
  function SetCategory(commands: seq<Command>, u: User, category: nat, value: bool): (v: User)
    requires |u.bits| == BITS
    ensures |v.bits| == BITS
    decreases |commands|
  {
    if commands == [] then u
    else
      var c := commands[0];
      var u1 := if !c.isModule && category in c.categories then DropSubs(SetBit(u, c.id, value), c.id) else u;
      SetCategory(commands[1..], u1, category, value)
  }

  predicate HasSub(list: seq<string>, sub: string) {
    exists i | 0 <= i < |list| :: Same(list[i], sub)
  }

  function SubsOf(u: User, id: nat): seq<string> {
    if id in u.subs then u.subs[id] else []
  }

  /** ACLAddAllowedSubcommand. */
  function AddSubcommand(u: User, id: nat, sub: string): User {
    if HasSub(SubsOf(u, id), sub) then u else u.(subs := u.subs[id := SubsOf(u, id) + [sub]])
  }

  /** ACLSetUser, on the rules about commands; None is an error return. */
  function Obey(t: Table, u: User, rule: Rule): (v: Option<User>)
    requires |u.bits| == BITS
    ensures v.Some? ==> |v.value.bits| == BITS
  {
    match rule
    case All => Some(User(seq(BITS, _ => true), true, map[]))
    case Nothing => Some(User(seq(BITS, _ => false), false, map[]))
    case Add(name) =>
      var c := FindCommand(t.commands, name);
      if c.None? then None else Some(DropSubs(SetBit(u, c.value.id, true), c.value.id))
    case Remove(name) =>
      var c := FindCommand(t.commands, name);
      if c.None? then None else Some(DropSubs(SetBit(u, c.value.id, false), c.value.id))
    case AddSub(name, sub) =>
      var c := FindCommand(t.commands, name);
      if c.None? || sub == "" then None
      else if c.value.id < BITS && u.bits[c.value.id] then Some(u)
      else Some(AddSubcommand(u, c.value.id, sub))
    case Category(on, name) =>
      var j := FindCategory(t.categories, name);
      if j == |t.categories| then None else Some(SetCategory(t.commands, u, j, on))
    case Other => Some(u)
    case Unknown => None
  }

  function SetUser(t: Table, u: User, op: string): (v: Option<User>)
    requires |u.bits| == BITS
    ensures v.Some? ==> |v.value.bits| == BITS
  {
    Obey(t, u, Parse(op))
  }

  /** The rules of one ACL SETUSER command: all of them, or an error. */
  function SetAll(t: Table, u: User, ops: seq<string>): (v: Option<User>)
    requires |u.bits| == BITS
    ensures v.Some? ==> |v.value.bits| == BITS
    decreases |ops|
  {
    if ops == [] then Some(u)
    else
      var v := SetUser(t, u, ops[0]);
      if v.None? then None else SetAll(t, v.value, ops[1..])
  }

  /** The command part of ACLCheckCommandPerm; AUTH is always allowed. */
  predicate Allowed(u: User, c: Command, isAuth: bool, argv: seq<string>) {
    || u.all || isAuth
    || (c.id < |u.bits| && u.bits[c.id])
    || (2 <= |argv| && HasSub(SubsOf(u, c.id), argv[1]))
  }

  // ---------------------------------------------------------------------------------------------------------
  // What every rule keeps
  // ---------------------------------------------------------------------------------------------------------

  /** ACLGetCommandID numbers commands by name and skips the reserved bit; names hold none of the characters the rule
      syntax uses; "all" is not a category of the table. */
  ghost predicate TableOk(t: Table) {
    && (forall c <- t.commands :: c.id < RESERVED && NameOk(c.name) && c.name[0] != '@' && '|' !in c.name)
    && (forall i, j | 0 <= i < j < |t.commands| ::
          t.commands[i].id != t.commands[j].id && !Same(t.commands[i].name, t.commands[j].name))
    && (forall i | 0 <= i < |t.categories| :: NameOk(t.categories[i]) && !Same(t.categories[i], "all"))
    && (forall i, j | 0 <= i < j < |t.categories| :: !Same(t.categories[i], t.categories[j]))
  }

  predicate NameOk(name: string) {
    name != "" && !HasSpaces(name)
  }

  /** isspace. */
  predicate IsSpace(c: char) { c in " \t\n\r" || c as int == 11 || c as int == 12 }

  /** ACLStringHasSpaces. */
  predicate HasSpaces(s: string) {
    exists i | 0 <= i < |s| :: IsSpace(s[i]) || s[i] == '\0'
  }

  ghost predicate IsId(t: Table, id: nat) {
    exists c :: c in t.commands && c.id == id
  }

  /** No two entries are the same word, and none is empty or has a NUL in it. */
  ghost predicate ListOk(list: seq<string>) {
    && list != [] && "" !in list && (forall sub <- list :: '\0' !in sub)
    && forall i, j | 0 <= i < j < |list| :: !Same(list[i], list[j])
  }

  /** A user reached by rules: the flag means every bit; a bit that belongs to no command is what the last +@all or -@all
      made it; only commands that are not allowed have subcommands. */
  ghost predicate UserOk(t: Table, u: User) {
    && |u.bits| == BITS
    && (u.all ==> forall id | 0 <= id < BITS :: u.bits[id])
    && (forall id: nat | id < BITS && !IsId(t, id) :: u.bits[id] == u.bits[RESERVED])
    && (forall id <- u.subs :: IsId(t, id) && id < RESERVED && !u.bits[id] && ListOk(u.subs[id]))
  }

  lemma ChangeKeeps(t: Table, u: User, c: Command, value: bool)
    requires TableOk(t) && UserOk(t, u) && c in t.commands
    ensures UserOk(t, DropSubs(SetBit(u, c.id, value), c.id))
  {
    assert IsId(t, c.id);
  }

  lemma {:induction false} CategoryKeeps(t: Table, commands: seq<Command>, u: User, category: nat, value: bool)
    requires TableOk(t) && UserOk(t, u) && (forall c <- commands :: c in t.commands)
    ensures UserOk(t, SetCategory(commands, u, category, value))
    decreases |commands|
  {
    hide UserOk, TableOk, DropSubs, SetBit;
    if commands != [] {
      var c := commands[0];
      UserHasBits(t, u);
      var u1 := if !c.isModule && category in c.categories then DropSubs(SetBit(u, c.id, value), c.id) else u;
      ChangeKeeps(t, u, c, value);
      UserHasBits(t, u1);
      CategoryKeeps(t, commands[1..], u1, category, value);
    }
  }

  lemma UserHasBits(t: Table, u: User)
    requires UserOk(t, u)
    ensures |u.bits| == BITS
  {
  }

  lemma SubKeeps(t: Table, u: User, c: Command, sub: string)
    requires TableOk(t) && UserOk(t, u) && c in t.commands && sub != "" && '\0' !in sub && !u.bits[c.id]
    ensures UserOk(t, AddSubcommand(u, c.id, sub))
  {
    hide Same;
    assert IsId(t, c.id);
    var list := SubsOf(u, c.id);
    if !HasSub(list, sub) {
      assert ListOk(list + [sub]);
    }
  }

  /** Every rule that is accepted keeps the user well-formed. */
  lemma ObeyKeeps(t: Table, u: User, rule: Rule)
    requires TableOk(t) && UserOk(t, u) && Obey(t, u, rule).Some? && RuleOk(rule)
    ensures UserOk(t, Obey(t, u, rule).value)
  {
    hide TableOk, FindCommand, FindCategory;
    match rule
    case Add(name) => ChangeKeeps(t, u, FindCommand(t.commands, name).value, true);
    case Remove(name) => ChangeKeeps(t, u, FindCommand(t.commands, name).value, false);
    case AddSub(name, sub) =>
      var c := FindCommand(t.commands, name).value;
      TableId(t, c);
      if !u.bits[c.id] { SubKeeps(t, u, c, sub); }
    case Category(on, name) => CategoryKeeps(t, t.commands, u, FindCategory(t.categories, name), on);
    case _ =>
  }

  /** Rules that come from text hold no NUL. */
  predicate RuleOk(rule: Rule) {
    rule.AddSub? ==> '\0' !in rule.sub
  }

  lemma ParsedIsOk(op: string)
    ensures RuleOk(Parse(op))
  {
    hide Same;
    assert '\0' !in CString(op);
  }

  lemma TableId(t: Table, c: Command)
    requires TableOk(t) && c in t.commands
    ensures c.id < RESERVED && IsId(t, c.id)
  {
  }

  lemma {:induction false} RulesKeep(t: Table, u: User, ops: seq<string>)
    requires TableOk(t) && UserOk(t, u) && SetAll(t, u, ops).Some?
    ensures UserOk(t, SetAll(t, u, ops).value)
    decreases |ops|
  {
    hide TableOk, UserOk, Obey, Parse;
    if ops != [] {
      UserHasBits(t, u);
      ParsedIsOk(ops[0]);
      ObeyKeeps(t, u, Parse(ops[0]));
      RulesKeep(t, SetUser(t, u, ops[0]).value, ops[1..]);
    }
  }

  /** ACLCreateUser: no command at all. */
  function NewUser(): (u: User)
    ensures |u.bits| == BITS
  {
    User(seq(BITS, _ => false), false, map[])
  }

  lemma NewUserOk(t: Table)
    ensures UserOk(t, NewUser())
  {
  }

  // ---------------------------------------------------------------------------------------------------------
  // What every rule means
  // ---------------------------------------------------------------------------------------------------------

  /** Whether a user may run a command with these arguments, AUTH aside. */
  predicate May(u: User, c: Command, argv: seq<string>) { Allowed(u, c, false, argv) }

  predicate InCategory(t: Table, c: Command, name: string) {
    !c.isModule && exists j | 0 <= j < |t.categories| :: Same(t.categories[j], name) && j in c.categories
  }

  /** Whether the rule is about something that exists. */
  predicate Makes(t: Table, rule: Rule) {
    match rule
    case Add(name) => exists c <- t.commands :: Same(c.name, name)
    case Remove(name) => exists c <- t.commands :: Same(c.name, name)
    case AddSub(name, sub) => sub != "" && exists c <- t.commands :: Same(c.name, name)
    case Category(_, name) => exists j | 0 <= j < |t.categories| :: Same(t.categories[j], name)
    case Unknown => false
    case _ => true
  }

  /** What a rule makes of the verdict `was` on a command. */
  predicate Verdict(t: Table, rule: Rule, c: Command, argv: seq<string>, was: bool) {
    match rule
    case All => true
    case Nothing => false
    case Add(name) => was || Same(c.name, name)
    case Remove(name) => was && !Same(c.name, name)
    case AddSub(name, sub) => was || (Same(c.name, name) && 2 <= |argv| && Same(argv[1], sub))
    case Category(on, name) => if InCategory(t, c, name) then on else was
    case Other => was
    case Unknown => was
  }

  /** The user's entry for one command. */
  ghost predicate SameEntry(u: User, v: User, id: nat)
    requires |u.bits| == |v.bits| == BITS && id < BITS
  {
    u.bits[id] == v.bits[id] && (id in u.subs <==> id in v.subs) && (id in u.subs ==> u.subs[id] == v.subs[id])
  }

  /** The entry is this bit, without subcommands. */
  ghost predicate Plainly(v: User, id: nat, value: bool)
    requires |v.bits| == BITS && id < BITS
  {
    v.bits[id] == value && id !in v.subs
  }

  lemma ChangesOne(u: User, id: nat, value: bool)
    requires |u.bits| == BITS && id < BITS
    ensures var v := DropSubs(SetBit(u, id, value), id);
            && Plainly(v, id, value) && (forall other: nat | other < BITS && other != id :: SameEntry(u, v, other))
            && (v.all <==> u.all && value)
  {
  }

  /** A category rule gives every command of the category that is no module's the bit and no subcommands, and leaves every
      other entry alone; the flag survives unless a command is taken away. */
  lemma {:induction false} CategoryMeans(commands: seq<Command>, u: User, j: nat, value: bool)
    requires |u.bits| == BITS && (forall c <- commands :: c.id < BITS)
    ensures var v := SetCategory(commands, u, j, value);
            && (forall c <- commands | !c.isModule && j in c.categories :: Plainly(v, c.id, value))
            && (forall id: nat | id < BITS && (forall c <- commands | !c.isModule && j in c.categories :: c.id != id) ::
                  SameEntry(u, v, id))
            && (v.all <==> u.all && (value || forall c <- commands :: c.isModule || j !in c.categories))
    decreases |commands|
  {
    hide SetBit, DropSubs, Plainly, SameEntry;
    if commands == [] {
      forall id: nat | id < BITS ensures SameEntry(u, u, id) { SameAgain(u, id); }
    } else {
      var c, rest := commands[0], commands[1..];
      assert c in commands && (forall d :: d in commands <==> d == c || d in rest);
      var hit := !c.isModule && j in c.categories;
      var u1 := if hit then DropSubs(SetBit(u, c.id, value), c.id) else u;
      if hit { ChangesOne(u, c.id, value); }
      assert |u1.bits| == BITS by { SetKeepsBits(u, c.id, value); }
      CategoryMeans(rest, u1, j, value);
      var v := SetCategory(commands, u, j, value);
      assert v == SetCategory(rest, u1, j, value);
      forall d <- commands | !d.isModule && j in d.categories ensures Plainly(v, d.id, value) {
        if forall e <- rest | !e.isModule && j in e.categories :: e.id != d.id {
          assert d == c && SameEntry(u1, v, d.id);
          SamePlainly(u1, v, d.id, value);
        } else {
          var e :| e in rest && !e.isModule && j in e.categories && e.id == d.id;
          assert Plainly(v, e.id, value);
        }
      }
      forall id: nat | id < BITS && (forall d <- commands | !d.isModule && j in d.categories :: d.id != id)
        ensures SameEntry(u, v, id)
      {
        assert SameEntry(u1, v, id);
        if hit { SameThrough(u, u1, v, id); }
      }
    }
  }

  /** The same of the rule as it is written: +@name or -@name. */
  lemma CategoryRule(t: Table, u: User, op: string)
    requires TableOk(t) && |u.bits| == BITS && Parse(op).Category? && SetUser(t, u, op).Some?
    ensures var v, on, name := SetUser(t, u, op).value, Parse(op).on, Parse(op).name;
            && (forall c <- t.commands | InCategory(t, c, name) :: v.bits[c.id] == on && c.id !in v.subs)
            && (forall id: nat | id < BITS && (forall c <- t.commands | InCategory(t, c, name) :: c.id != id) ::
                  SameEntry(u, v, id))
            && (v.all <==> u.all && (on || forall c <- t.commands :: !InCategory(t, c, name)))
  {
    hide Parse, Same, FindCategory, SetCategory, InCategory, SameEntry;
    var name := Parse(op).name;
    var j := FindCategory(t.categories, name);
    forall c <- t.commands ensures c.id < BITS && (InCategory(t, c, name) <==> !c.isModule && j in c.categories) {
      OneCategory(t, c, name);
    }
    CategoryMeans(t.commands, u, j, Parse(op).on);
    forall c <- t.commands | InCategory(t, c, name)
      ensures SetUser(t, u, op).value.bits[c.id] == Parse(op).on && c.id !in SetUser(t, u, op).value.subs
    {
      assert Plainly(SetUser(t, u, op).value, c.id, Parse(op).on);
    }
  }

  lemma SetKeepsBits(u: User, id: nat, value: bool)
    requires |u.bits| == BITS
    ensures |DropSubs(SetBit(u, id, value), id).bits| == BITS
  {
  }

  lemma SameAgain(u: User, id: nat)
    requires |u.bits| == BITS && id < BITS
    ensures SameEntry(u, u, id)
  {
  }

  lemma SamePlainly(u: User, v: User, id: nat, value: bool)
    requires |u.bits| == |v.bits| == BITS && id < BITS && SameEntry(u, v, id) && Plainly(u, id, value)
    ensures Plainly(v, id, value)
  {
  }

  lemma SameThrough(u: User, u1: User, v: User, id: nat)
    requires |u.bits| == |u1.bits| == |v.bits| == BITS && id < BITS && SameEntry(u, u1, id) && SameEntry(u1, v, id)
    ensures SameEntry(u, v, id)
  {
  }

  /** The verdict only depends on the entry. */
  lemma SameMay(t: Table, u: User, v: User, c: Command, argv: seq<string>)
    requires TableOk(t) && UserOk(t, u) && UserOk(t, v) && c in t.commands && SameEntry(u, v, c.id)
    ensures May(v, c, argv) <==> May(u, c, argv)
  {
  }

  lemma PlainMay(t: Table, v: User, c: Command, argv: seq<string>, value: bool)
    requires TableOk(t) && UserOk(t, v) && c in t.commands && Plainly(v, c.id, value)
    ensures May(v, c, argv) <==> value
  {
  }

  /** A category is found under its name, and no other is. */
  lemma OneCategory(t: Table, c: Command, name: string)
    requires TableOk(t) && FindCategory(t.categories, name) < |t.categories|
    ensures InCategory(t, c, name) <==> !c.isModule && FindCategory(t.categories, name) in c.categories
  {
    hide Same;
    var j := FindCategory(t.categories, name);
    forall i | 0 <= i < |t.categories| && Same(t.categories[i], name) ensures i == j {
      SameBoth(t.categories[i], t.categories[j], name);
    }
  }

  lemma SameBoth(a: string, b: string, name: string)
    requires Same(a, name) && Same(b, name)
    ensures Same(a, b) && Same(b, a)
  {
  }

  /** So is a command. */
  lemma OneCommand(t: Table, c: Command, name: string)
    requires TableOk(t) && c in t.commands && FindCommand(t.commands, name).Some?
    ensures Same(c.name, name) <==> c == FindCommand(t.commands, name).value
    ensures c != FindCommand(t.commands, name).value ==> c.id != FindCommand(t.commands, name).value.id
  {
    hide Same;
    var d := FindCommand(t.commands, name).value;
    var i :| 0 <= i < |t.commands| && t.commands[i] == c;
    var k :| 0 <= k < |t.commands| && t.commands[k] == d;
    if Same(c.name, name) { SameBoth(c.name, d.name, name); }
  }

  lemma CategoryVerdict(t: Table, u: User, rule: Rule, c: Command, argv: seq<string>)
    requires TableOk(t) && UserOk(t, u) && Obey(t, u, rule).Some? && rule.Category? && c in t.commands
    ensures May(Obey(t, u, rule).value, c, argv) <==> Verdict(t, rule, c, argv, May(u, c, argv))
  {
    hide Same, SetCategory, FindCategory, InCategory, Plainly, SameEntry, May, UserOk;
    UserHasBits(t, u);
    var j, v := FindCategory(t.categories, rule.name), Obey(t, u, rule).value;
    OneCategory(t, c, rule.name);
    CategoryKeeps(t, t.commands, u, j, rule.on);
    CategoryMeans(t.commands, u, j, rule.on);
    if !c.isModule && j in c.categories {
      PlainMay(t, v, c, argv, rule.on);
    } else {
      forall d <- t.commands | !d.isModule && j in d.categories ensures d.id != c.id { DistinctIds(t, c, d); }
      assert SameEntry(u, v, c.id);
      SameMay(t, u, v, c, argv);
    }
  }

  lemma DistinctIds(t: Table, c: Command, d: Command)
    requires TableOk(t) && c in t.commands && d in t.commands && c != d
    ensures c.id != d.id
  {
    var i :| 0 <= i < |t.commands| && t.commands[i] == c;
    var k :| 0 <= k < |t.commands| && t.commands[k] == d;
  }

  lemma CommandVerdict(t: Table, u: User, rule: Rule, c: Command, argv: seq<string>)
    requires TableOk(t) && UserOk(t, u) && Obey(t, u, rule).Some? && (rule.Add? || rule.Remove?) && c in t.commands
    ensures May(Obey(t, u, rule).value, c, argv) <==> Verdict(t, rule, c, argv, May(u, c, argv))
  {
    hide Same, FindCommand, Plainly, SameEntry, May, UserOk, DropSubs, SetBit;
    UserHasBits(t, u);
    var d, v := FindCommand(t.commands, rule.name).value, Obey(t, u, rule).value;
    OneCommand(t, c, rule.name);
    ChangeKeeps(t, u, d, rule.Add?);
    ChangesOne(u, d.id, rule.Add?);
    if c == d {
      PlainMay(t, v, c, argv, rule.Add?);
    } else {
      SameMay(t, u, v, c, argv);
    }
  }

  lemma SubVerdict(t: Table, u: User, rule: Rule, c: Command, argv: seq<string>)
    requires TableOk(t) && UserOk(t, u) && Obey(t, u, rule).Some? && rule.AddSub? && c in t.commands
    ensures May(Obey(t, u, rule).value, c, argv) <==> Verdict(t, rule, c, argv, May(u, c, argv))
  {
    hide FindCommand, TableOk;
    var d := FindCommand(t.commands, rule.name).value;
    TableId(t, c);
    TableId(t, d);
    OneCommand(t, c, rule.name);
    var list := SubsOf(u, d.id);
    assert HasSub(list + [rule.sub], if 2 <= |argv| then argv[1] else "")
           <==> HasSub(list, if 2 <= |argv| then argv[1] else "") || Same(rule.sub, if 2 <= |argv| then argv[1] else "")
    by { OneMoreSub(list, rule.sub, if 2 <= |argv| then argv[1] else ""); }
    if HasSub(list, rule.sub) && 2 <= |argv| && Same(argv[1], rule.sub) {
      var i :| 0 <= i < |list| && Same(list[i], rule.sub);
      assert Same(list[i], argv[1]);
    }
  }

  lemma OneMoreSub(list: seq<string>, sub: string, word: string)
    ensures HasSub(list + [sub], word) <==> HasSub(list, word) || Same(sub, word)
  {
    hide Same;
    var more := list + [sub];
    assert more[|list|] == sub && forall i | 0 <= i < |list| :: more[i] == list[i];
    if HasSub(list, word) {
      var i :| 0 <= i < |list| && Same(list[i], word);
      assert Same(more[i], word);
    }
  }

  /** What a rule does to what a user may run, whatever the user and the command: it is accepted if and only if what it names
      exists, and then the verdict on every command with every argument is as the rule says. */
  lemma RuleMeans(t: Table, u: User, rule: Rule, c: Command, argv: seq<string>)
    requires TableOk(t) && UserOk(t, u) && c in t.commands
    ensures Obey(t, u, rule).Some? <==> Makes(t, rule)
    ensures Obey(t, u, rule).Some? ==>
              (May(Obey(t, u, rule).value, c, argv) <==> Verdict(t, rule, c, argv, May(u, c, argv)))
    ensures forall auth: Command :: Allowed(u, auth, true, argv)
  {
    hide Same, FindCommand, FindCategory, SetCategory;
    AcceptedExactly(t, u, rule);
    if Obey(t, u, rule).Some? {
      match rule
      case Add(_) => CommandVerdict(t, u, rule, c, argv);
      case Remove(_) => CommandVerdict(t, u, rule, c, argv);
      case AddSub(_, _) => SubVerdict(t, u, rule, c, argv);
      case Category(_, _) => CategoryVerdict(t, u, rule, c, argv);
      case _ => TableId(t, c);
    }
  }

  lemma AcceptedExactly(t: Table, u: User, rule: Rule)
    requires |u.bits| == BITS
    ensures Obey(t, u, rule).Some? <==> Makes(t, rule)
  {
    hide Same, SetCategory;
  }

  /** The words without a sign, in any case: three are about all commands, the others about something else, and there are no
      more. */
  lemma WordsMean(op: string)
    requires op != "" && '\0' !in op && op[0] != '+' && op[0] != '-'
    ensures Same(op, "allcommands") ==> Parse(op) == All
    ensures Same(op, "nocommands") || Same(op, "reset") ==> Parse(op) == Nothing
    ensures Parse(op) == Other <==> !Same(op, "allcommands") && !Same(op, "nocommands") && !Same(op, "reset") && IsOther(op)
    ensures Parse(op) in {All, Nothing, Other, Unknown}
  {
    hide IsOther, Same, IndexOf;
    assert CString(op) == op;
    if Same(op, "+@all") { FirstLetters(op, "+@all"); }
    if Same(op, "-@all") { FirstLetters(op, "-@all"); }
    if Same(op, "allcommands") { SameLength(op, "allcommands"); }
    if Same(op, "nocommands") { SameLength(op, "nocommands"); }
    if Same(op, "reset") { SameLength(op, "reset"); }
  }

  /** What starts a rule about passwords, keys or channels, and the words for flags. */
  lemma OthersAre(s: string)
    requires s != ""
    ensures IsOther(s)
            <==> || s[0] in {'>', '#', '<', '!', '~', '&'}
                 || Same(s, "on") || Same(s, "off") || Same(s, "skip-sanitize-payload") || Same(s, "sanitize-payload")
                 || Same(s, "allkeys") || Same(s, "resetkeys") || Same(s, "allchannels") || Same(s, "resetchannels")
                 || Same(s, "nopass") || Same(s, "resetpass")
  {
    hide Same;
    var w := OTHER_WORDS;
    assert |w| == 10 && w[0] == "on" && w[1] == "off" && w[2] == "skip-sanitize-payload" && w[3] == "sanitize-payload";
    assert w[4] == "allkeys" && w[5] == "resetkeys" && w[6] == "allchannels" && w[7] == "resetchannels";
    assert w[8] == "nopass" && w[9] == "resetpass";
  }

  lemma SameLength(a: string, b: string)
    requires Same(a, b)
    ensures |a| == |b|
  {
    hide Lower;
  }

  lemma FirstLetters(a: string, b: string)
    requires a != "" && b != "" && Same(a, b)
    ensures LowerChar(a[0]) == LowerChar(b[0])
  {
    assert Lower(a)[0] == LowerChar(a[0]) && Lower(b)[0] == LowerChar(b[0]);
  }

  /** The rules of one ACL SETUSER, read one after the other. */
  predicate Verdicts(t: Table, ops: seq<string>, c: Command, argv: seq<string>, was: bool)
    decreases |ops|
  {
    if ops == [] then was else Verdicts(t, ops[1..], c, argv, Verdict(t, Parse(ops[0]), c, argv, was))
  }

  lemma {:induction false} RulesMean(t: Table, u: User, ops: seq<string>, c: Command, argv: seq<string>)
    requires TableOk(t) && UserOk(t, u) && c in t.commands
    ensures SetAll(t, u, ops).Some? <==> forall op <- ops :: Makes(t, Parse(op))
    ensures SetAll(t, u, ops).Some? ==>
              (May(SetAll(t, u, ops).value, c, argv) <==> Verdicts(t, ops, c, argv, May(u, c, argv)))
    decreases |ops|
  {
    hide TableOk, UserOk, Obey, Parse, Makes, Verdict, May;
    UserHasBits(t, u);
    if ops != [] {
      assert forall op :: op in ops <==> op == ops[0] || op in ops[1..];
      RuleMeans(t, u, Parse(ops[0]), c, argv);
      if SetUser(t, u, ops[0]).Some? {
        ParsedIsOk(ops[0]);
        ObeyKeeps(t, u, Parse(ops[0]));
        RulesMean(t, SetUser(t, u, ops[0]).value, ops[1..], c, argv);
      }
    }
  }
}
