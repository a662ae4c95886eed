/** The user structure of acl.c, changed in place by ACLSetUser, and the decompiler ACLDescribeUserCommandRules. */
module AclUser {
  import opened Basics
  import opened AclRules
  import opened AclDescribe

  class UserObject {
    const bits: array<bool>
    var all: bool
    var subs: map<nat, seq<string>>

    ghost predicate Valid()
      reads this
    {
      bits.Length == BITS
    }

    ghost function Value(): User
      reads this, bits
    {
      User(bits[..], all, subs)
    }

    constructor ()
      ensures Valid() && fresh(bits) && Value() == NewUser()
    {
      bits := new bool[BITS](_ => false);
      all, subs := false, map[];
    }

    /** ACLGetUserCommandBit. */
    function GetBit(id: nat): bool
      requires Valid()
      reads this, bits
    {
      id < BITS && bits[id]
    }

    /** ACLSetUserCommandBit. */
    method SetCommandBit(id: nat, value: bool)
      requires Valid()
      modifies `all, bits
      ensures Value() == SetBit(old(Value()), id, value)
    {
      if id >= BITS { return; }
      bits[id] := value;
      if !value { all := false; }
    }

    /** ACLResetSubcommandsForCommand. */
    method ResetSubcommands(id: nat)
      modifies `subs
      ensures Value() == DropSubs(old(Value()), id)
    {
      subs := subs - {id};
    }

    /** The memset of +@all and -@all. */
    method SetAllBits(value: bool)
      requires Valid()
      modifies this, bits
      ensures Value() == User(seq(BITS, _ => value), value, map[])
    {
      for i := 0 to BITS
        invariant forall j | 0 <= j < i :: bits[j] == value
      {
        bits[i] := value;
      }
      all, subs := value, map[];
    }

    /** ACLSetUserCommandBitsForCategory, once the category is found. */
    method SetCategoryBits(commands: seq<Command>, category: nat, value: bool)
      requires Valid()
      modifies this, bits
      ensures Value() == SetCategory(commands, old(Value()), category, value)
    {
      hide SetBit, DropSubs;
      assert commands[0..] == commands;
      for i := 0 to |commands|
        invariant SetCategory(commands, old(Value()), category, value)
                  == SetCategory(commands[i..], Value(), category, value)
      {
        var c := commands[i];
        assert commands[i..][1..] == commands[i + 1..];
        if !c.isModule && category in c.categories {
          SetCommandBit(c.id, value);
          ResetSubcommands(c.id);
        }
      }
    }

    /** ACLAddAllowedSubcommand. */
    method AddAllowedSubcommand(id: nat, sub: string)
      modifies `subs
      ensures Value() == AddSubcommand(old(Value()), id, sub)
    {
      hide Same;
      var list := if id in subs then subs[id] else [];
      for items := 0 to |list|
        invariant forall j | 0 <= j < items :: !Same(list[j], sub)
      {
        if Same(list[items], sub) { return; }
      }
      subs := subs[id := list + [sub]];
    }

    /** ACLSetUser, on the rules about commands. */
    method Set(t: Table, op: string) returns (ok: bool)
      requires Valid()
      modifies this, bits
      ensures var v := SetUser(t, old(Value()), op);
              ok == v.Some? && Value() == if ok then v.value else old(Value())
    {
      hide Parse, SetBit, DropSubs, AddSubcommand, SetCategory, FindCommand, FindCategory;
      ok := true;
      match Parse(op) {
        case All => SetAllBits(true);
        case Nothing => SetAllBits(false);
        case Add(name) =>
          var c := FindCommand(t.commands, name);
          if c.None? { return false; }
          SetCommandBit(c.value.id, true);
          ResetSubcommands(c.value.id);
        case Remove(name) =>
          var c := FindCommand(t.commands, name);
          if c.None? { return false; }
          SetCommandBit(c.value.id, false);
          ResetSubcommands(c.value.id);
        case AddSub(name, sub) =>
          var c := FindCommand(t.commands, name);
          if c.None? || sub == "" { return false; }
          if !GetBit(c.value.id) {
            AddAllowedSubcommand(c.value.id, sub);
          }
        case Category(on, name) =>
          var j := FindCategory(t.categories, name);
          if j == |t.categories| { return false; }
          SetCategoryBits(t.commands, j, on);
        case Other =>
        case Unknown => return false;
      }
    }

    /** The memcpy of another user's bitmap. */
    method CopyBits(u: UserObject)
      requires Valid() && u.Valid() && u != this && u.bits != bits
      modifies bits
      ensures bits[..] == u.bits[..]
    {
      for i := 0 to BITS
        invariant bits[..i] == u.bits[..i]
      {
        bits[i] := u.bits[i];
      }
      assert bits[..] == bits[..BITS] && u.bits[..] == u.bits[..BITS];
    }

    /** ACLCountCategoryBitsForUser. */
    method CountCategoryBits(commands: seq<Command>, category: nat) returns (on: nat, off: nat)
      requires Valid()
      ensures on == Count(commands, Value(), category, true) && off == Count(commands, Value(), category, false)
    {
      on, off := 0, 0;
      for i := 0 to |commands|
        invariant on == Count(commands[..i], Value(), category, true)
        invariant off == Count(commands[..i], Value(), category, false)
      {
        var c := commands[i];
        assert commands[..i + 1][..i] == commands[..i];
        if category in c.categories {
          if GetBit(c.id) { on := on + 1; } else { off := off + 1; }
        }
      }
      assert commands[..|commands|] == commands;
    }

    /** The command part of ACLCheckCommandPerm. */
    method CheckCommandPerm(c: Command, isAuth: bool, argv: seq<string>) returns (ok: bool)
      requires Valid()
      ensures ok == Allowed(Value(), c, isAuth, argv)
    {
      hide Same;
      if all || isAuth { return true; }
      if GetBit(c.id) { return true; }
      if |argv| < 2 || c.id !in subs { return false; }
      var list := subs[c.id];
      for subid := 0 to |list|
        invariant forall j | 0 <= j < subid :: !Same(list[j], argv[1])
      {
        SameSym(argv[1], list[subid]);
        if Same(argv[1], list[subid]) { return true; }
      }
      return false;
    }
  }

  /** How many commands of a category the user may, or may not, run. */
  function Count(commands: seq<Command>, u: User, category: nat, on: bool): nat
    requires |u.bits| == BITS
  {
    if commands == [] then 0
    else
      var c := commands[|commands| - 1];
      var bit := c.id < BITS && u.bits[c.id];
      Count(commands[..|commands| - 1], u, category, on) + (if category in c.categories && bit == on then 1 else 0)
  }

  predicate Counts(c: Command, u: User, category: nat, on: bool)
    requires |u.bits| == BITS
  {
    category in c.categories && (c.id < BITS && u.bits[c.id]) == on
  }

  /** The places of the commands of a category that the user may, or may not, run. */
  function Places(commands: seq<Command>, u: User, category: nat, on: bool): set<nat>
    requires |u.bits| == BITS
  {
    set i: nat | i < |commands| && Counts(commands[i], u, category, on)
  }

  lemma {:induction false} CountIs(commands: seq<Command>, u: User, category: nat, on: bool)
    requires |u.bits| == BITS
    ensures Count(commands, u, category, on) == |Places(commands, u, category, on)|
  {
    hide Places;
    PlacesLast(commands, u, category, on);
    if commands != [] { CountIs(commands[..|commands| - 1], u, category, on); }
  }

  lemma PlacesLast(commands: seq<Command>, u: User, category: nat, on: bool)
    requires |u.bits| == BITS
    ensures commands == [] ==> Places(commands, u, category, on) == {}
    ensures commands != [] ==>
              var n := |commands| - 1;
              var before := Places(commands[..n], u, category, on);
              && n !in before
              && Places(commands, u, category, on) == before + if Counts(commands[n], u, category, on) then {n} else {}
  {
    hide Counts;
    assert forall i | 0 <= i < |commands| - 1 :: commands[..|commands| - 1][i] == commands[i];
  }

  // ---------------------------------------------------------------------------------------------------------
  // ACLDescribeUserCommandRules
  // ---------------------------------------------------------------------------------------------------------

  /** The rules emitted so far, applied to a new user, give v. */
  ghost predicate Gives(t: Table, rules: seq<string>, v: User) {
    SetAll(t, NewUser(), rules) == Some(v)
  }

  lemma GivesMore(t: Table, rules: seq<string>, v: User, more: seq<string>, w: User)
    requires Gives(t, rules, v) && |v.bits| == BITS && SetAll(t, v, more) == Some(w)
    ensures Gives(t, rules + more, w)
  {
    hide SetAll;
    SetAllAppend(t, NewUser(), rules, more);
  }

  /** Category words leave a user without subcommands, and the reserved bit as it was. */
  lemma {:induction false} CategoryTouches(t: Table, commands: seq<Command>, u: User, category: nat, value: bool)
    requires |u.bits| == BITS && (forall c <- commands :: c.id < RESERVED) && u.subs == map[]
    ensures var v := SetCategory(commands, u, category, value); v.subs == map[] && v.bits[RESERVED] == u.bits[RESERVED]
    decreases |commands|
  {
    if commands != [] {
      var c := commands[0];
      var u1 := if !c.isModule && category in c.categories then DropSubs(SetBit(u, c.id, value), c.id) else u;
      assert u1.subs == map[];
      CategoryTouches(t, commands[1..], u1, category, value);
    }
  }

  lemma CategoryWordApplies(t: Table, v: User, j: nat, on: bool)
    requires TableOk(t) && UserOk(t, v) && v.subs == map[] && j < |t.categories|
    ensures var w := SetUser(t, v, CategoryWord(on, t.categories[j]));
            w.Some? && UserOk(t, w.value) && w.value.subs == map[] && w.value.bits[RESERVED] == v.bits[RESERVED]
  {
    hide Parse, SetCategory, Same, UserOk;
    UserHasBits(t, v);
    ParseCategory(on, t.categories[j]);
    FindsCategory(t, j);
    CategoryTouches(t, t.commands, v, j, on);
    CategoryKeeps(t, t.commands, v, j, on);
  }

  /** The best category not applied yet: more commands in common than different, with the fewest different. */
  method BestCategory(t: Table, temp: UserObject, applied: seq<bool>, additive: bool) returns (best: int)
    requires temp.Valid() && |applied| == |t.categories|
    ensures -1 <= best < |t.categories|
    ensures best != -1 ==>
              && !applied[best]
              && Count(t.commands, temp.Value(), best, additive) > Count(t.commands, temp.Value(), best, !additive)
    ensures forall j | 0 <= j < |t.categories| && !applied[j]
                       && Count(t.commands, temp.Value(), j, additive) > Count(t.commands, temp.Value(), j, !additive) ::
              best != -1 && Count(t.commands, temp.Value(), best, !additive) <= Count(t.commands, temp.Value(), j, !additive)
  {
    hide Count;
    best := -1;
    var mindiff: nat, maxsame: nat := 0, 0;
    for j := 0 to |t.categories|
      invariant -1 <= best < j
      invariant best != -1 ==>
                  && !applied[best]
                  && mindiff == Count(t.commands, temp.Value(), best, !additive)
                  && maxsame == Count(t.commands, temp.Value(), best, additive) > mindiff
      invariant forall k | 0 <= k < j && !applied[k]
                           && Count(t.commands, temp.Value(), k, additive) > Count(t.commands, temp.Value(), k, !additive) ::
                  best != -1 && mindiff <= Count(t.commands, temp.Value(), k, !additive)
    {
      if applied[j] { continue; }
      var on, off := temp.CountCategoryBits(t.commands, j);
      var diff, same := if additive then off else on, if additive then on else off;
      if same > diff && (best == -1 || diff < mindiff || (diff == mindiff && same > maxsame)) {
        best, mindiff, maxsame := j, diff, same;
      }
    }
  }

  /** The first part: +@all or -@all, then categories while one fits better than not. */
  method DescribeCategories(t: Table, u: UserObject) returns (rules: seq<string>, fake: UserObject)
    requires TableOk(t) && u.Valid() && UserOk(t, u.Value())
    ensures fake.Valid() && fresh(fake) && fresh(fake.bits)
    ensures Gives(t, rules, fake.Value()) && UserOk(t, fake.Value())
    ensures fake.Value().subs == map[] && fake.bits[RESERVED] == u.bits[RESERVED]
    ensures rules != [] && (rules[0] == "+@all" || rules[0] == "-@all")
    ensures forall r <- rules :: Signed(r) && !Fragile(r)
  {
    hide SetUser, TableOk, UserOk, SetAll, Gives, CategoryWord, Fragile, Signed;
    var additive := !u.bits[RESERVED];
    fake := new UserObject();
    ghost var empty := fake.Value();
    var first := if additive then "-@all" else "+@all";
    var ok := fake.Set(t, first);
    FirstWord(t, !additive);
    rules := [first];
    var temp := new UserObject();
    temp.CopyBits(u);
    var applied := seq(|t.categories|, _ => false);
    ghost var left := Unapplied(applied);
    while true
      invariant fake.Valid() && temp.Valid() && fresh(temp) && fresh(temp.bits) && temp != fake && temp.bits != fake.bits
      invariant fresh(fake) && fresh(fake.bits)
      invariant |applied| == |t.categories| && left == Unapplied(applied)
      invariant Gives(t, rules, fake.Value()) && UserOk(t, fake.Value())
      invariant fake.Value().subs == map[] && fake.bits[RESERVED] == u.bits[RESERVED]
      invariant rules != [] && (rules[0] == "+@all" || rules[0] == "-@all")
      invariant forall r <- rules :: Signed(r) && !Fragile(r)
      decreases left
    {
      var best := BestCategory(t, temp, applied, additive);
      if best == -1 { break; }
      var op := CategoryWord(additive, t.categories[best]);
      var inverse := CategoryWord(!additive, t.categories[best]);
      ghost var before := fake.Value();
      CategoryWordApplies(t, before, best, additive);
      ok := fake.Set(t, op);
      assert ok;
      SetAllOne(t, before, op);
      GivesMore(t, rules, before, [op], fake.Value());
      CategoryIsSturdy(t, best, additive);
      ok := temp.Set(t, inverse);
      rules := rules + [op];
      UnappliedShrinks(applied, best);
      applied := applied[best := true];
      left := left - 1;
    }
  }

  ghost function Unapplied(applied: seq<bool>): nat {
    if applied == [] then 0 else (if applied[0] then 0 else 1) + Unapplied(applied[1..])
  }

  lemma {:induction false} UnappliedShrinks(applied: seq<bool>, j: nat)
    requires j < |applied| && !applied[j]
    ensures Unapplied(applied[j := true]) == Unapplied(applied) - 1
  {
    if j == 0 {
      assert applied[0 := true][1..] == applied[1..];
    } else {
      assert applied[j := true][1..] == applied[1..][j - 1 := true];
      UnappliedShrinks(applied[1..], j - 1);
    }
  }

  lemma FirstWord(t: Table, on: bool)
    ensures var v := User(seq(BITS, _ => on), on, map[]);
            var word := if on then "+@all" else "-@all";
            && SetUser(t, NewUser(), word) == Some(v)
            && Gives(t, [word], v) && UserOk(t, v) && v.bits[RESERVED] == on && Signed(word) && !Fragile(word)
  {
    hide SetAll, Parse;
    var word := if on then "+@all" else "-@all";
    ParseAll();
    SetAllOne(t, NewUser(), word);
  }

  lemma ParseAll()
    ensures Parse("+@all") == All && Parse("-@all") == Nothing
  {
    hide Lower, CString;
    NoNul("+@all");
    NoNul("-@all");
    SignedIsNoKeyword("-@all");
    SameRefl("+@all");
    SameRefl("-@all");
  }

  lemma CategoryIsSturdy(t: Table, j: nat, on: bool)
    requires TableOk(t) && j < |t.categories|
    ensures var word := CategoryWord(on, t.categories[j]); Signed(word) && !Fragile(word)
  {
    hide Same, HasSpaces, Fragile;
    var name := t.categories[j];
    assert NameOk(name);
    NoSpacesIsSturdy(name);
    SignIsNoSpace(on);
    FragileEnd(Sign(on) + "@", name);
  }

  lemma SignIsNoSpace(on: bool)
    ensures !HasSpaces(Sign(on)) && !HasSpaces(Sign(on) + "@")
  {
  }

  // ---------------------------------------------------------------------------------------------------------
  // The final pass
  // ---------------------------------------------------------------------------------------------------------

  ghost predicate Settled(u: User, v: User, id: nat)
    requires |u.bits| == BITS && |v.bits| == BITS && id < BITS
  {
    && v.bits[id] == u.bits[id]
    && (id in v.subs <==> id in u.subs)
    && (id in u.subs ==> v.subs[id] == u.subs[id])
  }

  /** The first n commands of the table have the bit and the subcommands of u, the others no subcommands yet. */
  ghost predicate Fixed(t: Table, u: User, v: User, n: nat)
    requires TableOk(t) && |u.bits| == BITS && |v.bits| == BITS && n <= |t.commands|
  {
    && v.bits[RESERVED] == u.bits[RESERVED]
    && (forall k | 0 <= k < n :: TableId(t, t.commands[k]); Settled(u, v, t.commands[k].id))
    && (forall k | n <= k < |t.commands| :: t.commands[k].id !in v.subs)
  }

  lemma FixedStep(t: Table, u: User, v: User, w: User, n: nat)
    requires TableOk(t) && |u.bits| == BITS && |v.bits| == BITS && n < |t.commands| && Fixed(t, u, v, n)
    requires t.commands[n].id < RESERVED
    requires var id := t.commands[n].id;
             && w.bits == v.bits[id := u.bits[id]]
             && w.subs == (if id in u.subs then v.subs[id := u.subs[id]] else v.subs)
    ensures Fixed(t, u, w, n + 1)
  {
    hide Same, NameOk;
    var id := t.commands[n].id;
    forall k | 0 <= k < |t.commands| && k != n ensures t.commands[k].id != id && t.commands[k].id < RESERVED {
      TableId(t, t.commands[k]);
    }
  }

  lemma FixedAll(t: Table, u: User, v: User)
    requires TableOk(t) && UserOk(t, u) && UserOk(t, v) && Fixed(t, u, v, |t.commands|)
    ensures v.bits == u.bits && v.subs == u.subs
  {
    hide Same, NameOk, ListOk;
    forall id: nat | id < BITS ensures v.bits[id] == u.bits[id] {
      if IsId(t, id) { IdIsSettled(t, u, v, id); }
    }
    forall id: nat ensures (id in v.subs <==> id in u.subs) && (id in u.subs ==> v.subs[id] == u.subs[id]) {
      if IsId(t, id) { IdIsSettled(t, u, v, id); }
    }
  }

  lemma IdIsSettled(t: Table, u: User, v: User, id: nat)
    requires TableOk(t) && |u.bits| == BITS && |v.bits| == BITS && Fixed(t, u, v, |t.commands|) && IsId(t, id)
    ensures id < BITS && Settled(u, v, id)
  {
    hide Settled;
    var c :| c in t.commands && c.id == id;
    TableId(t, c);
    var k :| 0 <= k < |t.commands| && t.commands[k] == c;
  }

  /** Some allowed subcommand does not survive an ACL file. */
  ghost predicate SubIsFragile(u: User) {
    exists id, i: nat :: id in u.subs && i < |u.subs[id]| && Fragile(u.subs[id][i])
  }

  lemma {:induction false} FragileSubs(u: User, name: string, id: nat, k: nat)
    requires !HasSpaces(name) && id in u.subs && ListOk(u.subs[id]) && k <= |u.subs[id]|
    ensures forall r <- SubWords(name, u.subs[id][k..]) :: Signed(r) && (Fragile(r) ==> SubIsFragile(u))
    decreases |u.subs[id]| - k
  {
    hide Fragile, HasSpaces, Same;
    var subs := u.subs[id];
    if k < |subs| {
      assert subs[k..][1..] == subs[k + 1..];
      FragileSubs(u, name, id, k + 1);
      NoSpacesIsSturdy(name);
      var word := SubWord(name, subs[k]);
      BarIsNoSpace(name);
      assert word == ("+" + name + "|") + subs[k];
      FragileEnd("+" + name + "|", subs[k]);
      assert '\0' !in subs[k];
    }
  }

  lemma BarIsNoSpace(name: string)
    requires !HasSpaces(name)
    ensures !HasSpaces("+" + name + "|")
  {
    var s := "+" + name + "|";
    forall i | 0 <= i < |s| ensures !IsSpace(s[i]) && s[i] != '\0' {
      if 0 < i < |s| - 1 { assert s[i] == name[i - 1]; }
    }
  }

  lemma FragileFix(t: Table, u: User, c: Command, bit: bool)
    requires TableOk(t) && c in t.commands && UserOk(t, u) && c.id < BITS
    ensures forall r <- FixWords(u, c, bit) :: Signed(r) && (Fragile(r) ==> SubIsFragile(u))
  {
    hide SubIsFragile, SubWords, Fragile, HasSpaces, ListOk;
    TableName(t, c);
    NoSpacesIsSturdy(c.name);
    SignIsNoSpace(u.bits[c.id]);
    FragileEnd(Sign(u.bits[c.id]), c.name);
    if c.id in u.subs {
      FragileSubs(u, c.name, c.id, 0);
      assert u.subs[c.id][0..] == u.subs[c.id];
    } else {
      NoSubWords(c.name);
    }
  }

  /** Emits the words for one command, as the body of the last loop does. */
  method DescribeCommand(u: UserObject, fake: UserObject, c: Command) returns (words: seq<string>)
    requires u.Valid() && fake.Valid() && c.id < BITS && u != fake && u.bits != fake.bits
    modifies fake`all, fake.bits
    ensures words == FixWords(u.Value(), c, old(fake.bits[c.id]))
    ensures fake.bits[..] == old(fake.bits[..])[c.id := u.bits[c.id]]
  {
    hide SubWords;
    words := [];
    var bit := u.GetBit(c.id);
    if bit != fake.GetBit(c.id) {
      words := words + [CommandWord(bit, c.name)];
      fake.SetCommandBit(c.id, bit);
    }
    if !bit && c.id in u.subs {
      var more := DescribeSubs(c.name, u.subs[c.id]);
      words := words + more;
    } else {
      NoSubWords(c.name);
    }
  }

  lemma NoSubWords(name: string)
    ensures SubWords(name, []) == []
  {
  }

  method DescribeSubs(name: string, subs: seq<string>) returns (words: seq<string>)
    ensures words == SubWords(name, subs)
  {
    words := [];
    assert subs[0..] == subs;
    for j := 0 to |subs|
      invariant SubWords(name, subs) == words + SubWords(name, subs[j..])
    {
      assert subs[j..][1..] == subs[j + 1..];
      words := words + ["+" + name + "|" + subs[j]];
    }
  }

  /** Rules that give a new user the bitmap and the subcommands of u, starting afresh; only a subcommand makes one
      fragile. */
  ghost predicate Describes(t: Table, u: User, rules: seq<string>) {
    && rules != [] && (rules[0] == "+@all" || rules[0] == "-@all")
    && (exists v :: Gives(t, rules, v) && v.bits == u.bits && v.subs == u.subs && UserOk(t, v))
    && (forall r <- rules :: Signed(r) && (Fragile(r) ==> SubIsFragile(u)))
  }

  lemma FixedNone(t: Table, u: User, v: User)
    requires TableOk(t) && UserOk(t, u) && UserOk(t, v) && v.subs == map[] && v.bits[RESERVED] == u.bits[RESERVED]
    ensures Fixed(t, u, v, 0)
  {
  }

  lemma FixedNext(t: Table, u: User, v: User, n: nat)
    requires TableOk(t) && |u.bits| == BITS && |v.bits| == BITS && n < |t.commands| && Fixed(t, u, v, n)
    ensures t.commands[n].id !in v.subs
  {
    hide Settled, TableOk;
  }

  /** ACLDescribeUserCommandRules: its rules, set on a new user, give the same bitmap and the same subcommands; the test
      of the two bitmaps that would panic never fails. */
  method Describe(t: Table, u: UserObject) returns (text: string, ghost rules: seq<string>, panics: bool)
    requires TableOk(t) && u.Valid() && UserOk(t, u.Value())
    ensures !panics && rules != [] && text == Join(rules)
    ensures Describes(t, u.Value(), rules)
  {
    hide SetAll, TableOk, UserOk, Gives, FixWords, Fixed, SubIsFragile, Fragile, Signed, Join, Spaced;
    var words, fake := DescribeCategories(t, u);
    ghost var v := fake.Value();
    FixedNone(t, u.Value(), v);
    for i := 0 to |t.commands|
      invariant fake.Valid() && fresh(fake) && fresh(fake.bits)
      invariant fake.bits[..] == v.bits
      invariant UserOk(t, v) && Gives(t, words, v) && Fixed(t, u.Value(), v, i)
      invariant words != [] && (words[0] == "+@all" || words[0] == "-@all")
      invariant forall r <- words :: Signed(r) && (Fragile(r) ==> SubIsFragile(u.Value()))
    {
      var c := t.commands[i];
      TableId(t, c);
      FixedNext(t, u.Value(), v, i);
      FixApplied(t, u.Value(), v, c);
      FragileFix(t, u.Value(), c, v.bits[c.id]);
      var more := DescribeCommand(u, fake, c);
      ghost var w := SetAll(t, v, more).value;
      GivesMore(t, words, v, more, w);
      RulesKeep(t, v, more);
      FixedStep(t, u.Value(), v, w, i);
      words := words + more;
      v := w;
    }
    FixedAll(t, u.Value(), v);
    rules := words;
    text := RenderWords(words);
    panics := fake.bits[..] != u.bits[..];
  }

  // ---------------------------------------------------------------------------------------------------------
  // What a description preserves
  // ---------------------------------------------------------------------------------------------------------

  /** Two well-formed users with the same bitmap and subcommands give the same verdict on every command of the table, even
      where one has the ALLCOMMANDS flag and the other only all the bits. */
  lemma SameVerdicts(t: Table, u: User, v: User, c: Command, isAuth: bool, argv: seq<string>)
    requires TableOk(t) && UserOk(t, u) && UserOk(t, v) && c in t.commands
    requires u.bits == v.bits && u.subs == v.subs
    ensures Allowed(u, c, isAuth, argv) == Allowed(v, c, isAuth, argv)
  {
    hide HasSub, IsId, Same;
    TableId(t, c);
  }

  /** For any user reached by rules from a new one, and any user w the description is set on: the result has the bitmap
      and the subcommands of u, and gives the verdicts of u. */
  lemma DescriptionRestores(t: Table, ops: seq<string>, u: User, rules: seq<string>, w: User)
    requires TableOk(t) && SetAll(t, NewUser(), ops) == Some(u) && Describes(t, u, rules) && |w.bits| == BITS
    ensures var v := SetAll(t, w, rules);
            && v.Some? && v.value.bits == u.bits && v.value.subs == u.subs
            && forall c, isAuth, argv | c in t.commands ::
                 Allowed(v.value, c, isAuth, argv) == Allowed(u, c, isAuth, argv)
  {
    hide Allowed, SetUser, TableOk, UserOk;
    NewUserOk(t);
    RulesKeep(t, NewUser(), ops);
    StartsAfresh(t, rules, w);
    var v :| Gives(t, rules, v) && v.bits == u.bits && v.subs == u.subs && UserOk(t, v);
    forall c, isAuth, argv | c in t.commands ensures Allowed(v, c, isAuth, argv) == Allowed(u, c, isAuth, argv) {
      SameVerdicts(t, v, u, c, isAuth, argv);
    }
  }

  lemma StartsAfresh(t: Table, rules: seq<string>, w: User)
    requires rules != [] && (rules[0] == "+@all" || rules[0] == "-@all") && |w.bits| == BITS
    ensures SetAll(t, w, rules) == SetAll(t, NewUser(), rules)
  {
    hide Parse;
    ParseAll();
  }
}
