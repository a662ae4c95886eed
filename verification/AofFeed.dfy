/** feedAppendOnlyFile: what the server appends for the commands it executes, and what replaying it does to a dataset. */
module AofFeed {
  import opened Basics
  import opened AofFormat
  import opened AofExpire
  import opened AofReplay
  import opened AofRecovery

  /** "SELECT" */
  const SELECT: Bytes := [83, 69, 76, 69, 67, 84]

  /** What propagate hands over: a command on its own, or the write commands of one EXEC, each with its database and the
      time it is executed and fed. */
  datatype Done = DoneOne(call: Call) | DoneBlock(db: nat, calls: seq<Call>, execDb: nat)
  datatype Call = Call(db: nat, argv: Argv, at: int)

  /** The same as it goes into the file. */
  datatype Fed = One(db: nat, argv: Argv) | Block(db: nat, items: seq<Item>, execDb: nat)
  datatype Item = Item(db: nat, argv: Argv)

  /** The command table and the functions behind its names; what a command does to a dataset, in database db, if it sets no
      deadline and if it sets one; the dataset a snapshot stands for; the argument vectors of MULTI and EXEC; and the time
      at which a file is loaded. */
  datatype Env<!D(!new)> = Env(
    cfg: Config, proc: Bytes -> Proc, change: (D, int, Argv) -> D, touch: (D, int, Core, int) -> D,
    restore: Bytes -> D, multi: Argv, exec: Argv, loadTime: int)

  /** A dataset being rebuilt, and the database the replaying client has selected. */
  datatype Replayed<D> = Replayed(db: int, data: D)

  function SelectCommand(db: nat): Argv {
    [SELECT, Decimal(db)]
  }

  function Reselect(selected: int, db: nat): seq<Argv> {
    if db != selected then [SelectCommand(db)] else []
  }

  /** One call of feedAppendOnlyFile: a SELECT first when the database is not the selected one. */
  function FedCommands(selected: int, db: nat, argv: Argv): seq<Argv> {
    Reselect(selected, db) + [argv]
  }

  function ItemCommands(selected: int, items: seq<Item>): seq<Argv>
    decreases |items|
  {
    if items == [] then []
    else FedCommands(selected, items[0].db, items[0].argv) + ItemCommands(items[0].db, items[1..])
  }

  function LastDb(db: nat, items: seq<Item>): nat {
    if items == [] then db else items[|items| - 1].db
  }

  /** The calls made for one EXEC: MULTI, the items, EXEC. */
  function Calls<D(!new)>(env: Env<D>, f: Fed): seq<Item> {
    match f
    case One(db, argv) => [Item(db, argv)]
    case Block(db, items, execDb) => [Item(db, env.multi)] + items + [Item(execDb, env.exec)]
  }

  function NewSelected(f: Fed): nat {
    match f
    case One(db, _) => db
    case Block(_, _, execDb) => execDb
  }

  /** The same, read as entries of the file. */
  function FedEntries<D(!new)>(env: Env<D>, selected: int, f: Fed): seq<Entry> {
    (if f.db != selected then [Single(SelectCommand(f.db))] else [])
    + match f
      case One(_, argv) => [Single(argv)]
      case Block(db, items, execDb) =>
        [Transaction(env.multi, ItemCommands(db, items) + Reselect(LastDb(db, items), execDb), env.exec)]
  }

  ghost predicate EnvOk<D(!new)>(env: Env<D>) {
    && IsKind(env.cfg, env.multi, Multi) && IsKind(env.cfg, env.exec, Exec)
    && env.cfg.lookup(SELECT) == Plain
    && env.cfg.lookup(PEXPIREAT) == Plain && env.proc(PEXPIREAT) == PExpireAt
  }

  /** Only commands that change data are fed, and their database index is an int. */
  ghost predicate ItemOk<D(!new)>(env: Env<D>, item: Item) {
    IsKind(env.cfg, item.argv, Plain) && item.argv[0] != SELECT && item.db < TWO_31
  }

  ghost predicate FedOk<D(!new)>(env: Env<D>, f: Fed) {
    match f
    case One(db, argv) => ItemOk(env, Item(db, argv))
    case Block(db, items, execDb) =>
      db < TWO_31 && execDb < TWO_31 && forall i | 0 <= i < |items| :: ItemOk(env, items[i])
  }

  // ---------------------------------------------------------------------------------------------------------
  // Replaying
  // ---------------------------------------------------------------------------------------------------------

  /** A command executed at a given time. */
  function Run<D(!new)>(env: Env<D>, data: D, db: int, argv: Argv, now: int): D {
    if argv == [] then data
    else
      var p := env.proc(argv[0]);
      if ArityOk(p, argv) && Deadline(p, argv, now).Some? then
        DeadlineOrNone(p, argv, now, 0);
        env.touch(data, db, CoreOf(p, argv), Deadline(p, argv, now).value)
      else env.change(data, db, argv)
  }

  /** A command read from the file. */
  function Redone<D(!new)>(env: Env<D>, data: D, db: int, argv: Argv): D {
    Run(env, data, db, argv, env.loadTime)
  }

  function Redo<D(!new)>(env: Env<D>, r: Replayed<D>, argv: Argv): Replayed<D> {
    if |argv| == 2 && argv[0] == SELECT then r.(db := StrToL(argv[1])) else r.(data := Redone(env, r.data, r.db, argv))
  }

  function RedoAll<D(!new)>(env: Env<D>, r: Replayed<D>, trace: seq<Argv>): Replayed<D>
    decreases |trace|
  {
    if trace == [] then r else RedoAll(env, Redo(env, r, trace[0]), trace[1..])
  }

  /** What the commands of the file do to a dataset. */
  function ApplyItems<D(!new)>(env: Env<D>, data: D, items: seq<Item>): D
    decreases |items|
  {
    if items == [] then data else ApplyItems(env, Redone(env, data, items[0].db, items[0].argv), items[1..])
  }

  function ApplyFed<D(!new)>(env: Env<D>, data: D, f: Fed): D {
    match f
    case One(db, argv) => Redone(env, data, db, argv)
    case Block(_, items, _) => ApplyItems(env, data, items)
  }

  lemma {:induction false} RedoAppend<D(!new)>(env: Env<D>, r: Replayed<D>, a: seq<Argv>, b: seq<Argv>)
    ensures RedoAll(env, r, a + b) == RedoAll(env, RedoAll(env, r, a), b)
    decreases |a|
  {
    if a == [] {
      assert a + b == b;
    } else {
      assert (a + b)[1..] == a[1..] + b;
      RedoAppend(env, Redo(env, r, a[0]), a[1..], b);
    }
  }

  lemma RedoSelect<D(!new)>(env: Env<D>, r: Replayed<D>, db: nat)
    requires db < TWO_31
    ensures Redo(env, r, SelectCommand(db)) == r.(db := db)
  {
    hide Decimal, Value, StrToL;
    DecimalValue(db);
    StrToLDigits(Decimal(db), []);
    assert Decimal(db) + [] == Decimal(db);
  }

  lemma RedoReselect<D(!new)>(env: Env<D>, r: Replayed<D>, selected: int, db: nat)
    requires db < TWO_31 && (selected == -1 || selected == r.db)
    ensures RedoAll(env, r, Reselect(selected, db)) == r.(db := db)
  {
    hide SelectCommand, Redo;
    RedoSelect(env, r, db);
    assert [SelectCommand(db)][1..] == [];
  }

  lemma RedoFed<D(!new)>(env: Env<D>, selected: int, r: Replayed<D>, db: nat, argv: Argv)
    requires ItemOk(env, Item(db, argv)) && (selected == -1 || selected == r.db)
    ensures RedoAll(env, r, FedCommands(selected, db, argv)) == Replayed(db, Redone(env, r.data, db, argv))
  {
    hide StrToL, Reselect;
    RedoAppend(env, r, Reselect(selected, db), [argv]);
    RedoReselect(env, r, selected, db);
    var r1 := r.(db := db);
    assert [argv][1..] == [];
    assert RedoAll(env, r1, [argv]) == RedoAll(env, Redo(env, r1, argv), []);
  }

  lemma {:induction false} RedoItems<D(!new)>(env: Env<D>, r: Replayed<D>, db: nat, items: seq<Item>)
    requires (forall i | 0 <= i < |items| :: ItemOk(env, items[i])) && r.db == db
    ensures RedoAll(env, r, ItemCommands(db, items)) == Replayed(LastDb(db, items), ApplyItems(env, r.data, items))
    decreases |items|
  {
    hide FedCommands, ItemOk;
    if items != [] {
      var item := items[0];
      var first := FedCommands(db, item.db, item.argv);
      RedoAppend(env, r, first, ItemCommands(item.db, items[1..]));
      assert item == Item(item.db, item.argv);
      RedoFed(env, db, r, item.db, item.argv);
      RedoItems(env, Replayed(item.db, Redone(env, r.data, item.db, item.argv)), item.db, items[1..]);
    }
  }

  /** Replaying what was fed changes a dataset as executing it did, whatever database the replaying client had selected
      when no SELECT was known to be in force. */
  lemma FedEffect<D(!new)>(env: Env<D>, selected: int, f: Fed, r: Replayed<D>)
    requires FedOk(env, f) && (selected == -1 || selected == r.db)
    ensures RedoAll(env, r, Effects(FedEntries(env, selected, f))) == Replayed(NewSelected(f), ApplyFed(env, r.data, f))
  {
    hide ItemOk, SelectCommand, ItemCommands, RedoAll, Redo;
    match f
    case One(db, argv) =>
      FedEntriesOne(env, selected, db, argv);
      RedoFed(env, selected, r, db, argv);
    case Block(db, items, execDb) =>
      var start, body, end := Reselect(selected, db), ItemCommands(db, items), Reselect(LastDb(db, items), execDb);
      FedEntriesBlock(env, selected, f);
      RedoAppend(env, r, start, body + end);
      RedoReselect(env, r, selected, db);
      var r1 := r.(db := db);
      RedoAppend(env, r1, body, end);
      RedoItems(env, r1, db, items);
      RedoReselect(env, RedoAll(env, r1, body), LastDb(db, items), execDb);
  }

  lemma FedEntriesOne<D(!new)>(env: Env<D>, selected: int, db: nat, argv: Argv)
    ensures Effects(FedEntries(env, selected, One(db, argv))) == FedCommands(selected, db, argv)
  {
    hide SelectCommand;
    var s, e := Single(SelectCommand(db)), Single(argv);
    assert [e][1..] == [] && [s, e][1..] == [e];
    assert [s] + [e] == [s, e] && [] + [e] == [e];
    assert Effects([e]) == [argv] + Effects([]);
  }

  lemma FedEntriesBlock<D(!new)>(env: Env<D>, selected: int, f: Fed)
    requires f.Block?
    ensures Effects(FedEntries(env, selected, f))
            == Reselect(selected, f.db) + (ItemCommands(f.db, f.items) + Reselect(LastDb(f.db, f.items), f.execDb))
  {
    hide SelectCommand, ItemCommands, LastDb;
    var t := Transaction(env.multi, ItemCommands(f.db, f.items) + Reselect(LastDb(f.db, f.items), f.execDb), env.exec);
    var s := Single(SelectCommand(f.db));
    assert [t][1..] == [] && [s, t][1..] == [t];
    assert [s] + [t] == [s, t] && [] + [t] == [t];
    assert Effects([t]) == t.body + Effects([]);
  }

  // ---------------------------------------------------------------------------------------------------------
  // The calls and the entries are the same bytes
  // ---------------------------------------------------------------------------------------------------------

  lemma {:induction false} ItemCommandsAppend(selected: int, items: seq<Item>, last: Item)
    ensures var now := if items == [] then selected else items[|items| - 1].db;
            ItemCommands(selected, items + [last]) == ItemCommands(selected, items) + FedCommands(now, last.db, last.argv)
    decreases |items|
  {
    hide FedCommands;
    if items == [] {
      assert items + [last] == [last] && [last][1..] == [];
    } else {
      assert (items + [last])[1..] == items[1..] + [last];
      ItemCommandsAppend(items[0].db, items[1..], last);
    }
  }

  lemma FedBytes<D(!new)>(env: Env<D>, selected: int, f: Fed)
    ensures Flatten(FedEntries(env, selected, f)) == ItemCommands(selected, Calls(env, f))
  {
    match f
    case One(db, argv) =>
      FlattenFed(Reselect(selected, db), Single(argv));
      SingleCommands(argv);
      assert Calls(env, f)[1..] == [];
    case Block(db, items, execDb) => FedBlockBytes(env, selected, f);
  }

  lemma FedBlockBytes<D(!new)>(env: Env<D>, selected: int, f: Fed)
    requires f.Block?
    ensures Flatten(FedEntries(env, selected, f)) == ItemCommands(selected, Calls(env, f))
  {
    hide SelectCommand, Flatten, ItemCommands;
    var last := Item(f.execDb, env.exec);
    var select := Reselect(selected, f.db);
    var items := ItemCommands(f.db, f.items);
    var again := Reselect(LastDb(f.db, f.items), f.execDb);
    FlattenFed(select, Transaction(env.multi, items + again, env.exec));
    ItemCommandsAppend(f.db, f.items, last);
    assert Calls(env, f) == [Item(f.db, env.multi)] + (f.items + [last]);
    FirstItem(selected, Item(f.db, env.multi), f.items + [last]);
    RegroupBlock(select, [env.multi], items, again, [env.exec]);
  }

  lemma RegroupBlock(select: seq<Argv>, multi: seq<Argv>, items: seq<Argv>, again: seq<Argv>, exec: seq<Argv>)
    ensures select + (multi + (items + again) + exec) == (select + multi) + (items + (again + exec))
  {
  }

  lemma FirstItem(selected: int, first: Item, rest: seq<Item>)
    ensures ItemCommands(selected, [first] + rest)
            == FedCommands(selected, first.db, first.argv) + ItemCommands(first.db, rest)
  {
    assert ([first] + rest)[1..] == rest;
  }

  lemma FlattenFed(select: seq<Argv>, e: Entry)
    requires |select| <= 1
    ensures Flatten((if select == [] then [] else [Single(select[0])]) + [e]) == select + Commands(e)
  {
    hide Commands;
    assert [e][1..] == [];
    assert Flatten([e]) == Commands(e) + Flatten([]);
    if select != [] {
      var s := Single(select[0]);
      assert [s] + [e] == [s, e] && [s, e][1..] == [e];
      SingleCommands(select[0]);
    } else {
      assert [] + [e] == [e];
    }
  }

  lemma SingleCommands(argv: Argv)
    ensures Commands(Single(argv)) == [argv]
  {
  }

  lemma SelectIsPlain<D(!new)>(env: Env<D>, db: nat)
    requires EnvOk(env) && db < TWO_31
    ensures IsKind(env.cfg, SelectCommand(db), Plain)
  {
    hide Decimal;
    DecimalFits(db);
  }

  lemma {:induction false} ItemsArePlain<D(!new)>(env: Env<D>, selected: int, items: seq<Item>)
    requires EnvOk(env) && forall i | 0 <= i < |items| :: ItemOk(env, items[i])
    ensures AllPlain(env.cfg, ItemCommands(selected, items))
    decreases |items|
  {
    hide Printable, SelectCommand;
    if items != [] {
      assert ItemOk(env, items[0]);
      SelectIsPlain(env, items[0].db);
      ItemsArePlain(env, items[0].db, items[1..]);
    }
  }

  /** What is fed is a well-formed piece of the file. */
  lemma FedEntriesOk<D(!new)>(env: Env<D>, selected: int, f: Fed)
    requires EnvOk(env) && FedOk(env, f)
    ensures EntriesOk(env.cfg, FedEntries(env, selected, f))
  {
    hide Printable, SelectCommand, ItemCommands;
    SelectIsPlain(env, f.db);
    if f.Block? {
      ItemsArePlain(env, f.db, f.items);
      SelectIsPlain(env, f.execDb);
    }
  }

  // ---------------------------------------------------------------------------------------------------------
  // What was executed and what is fed
  // ---------------------------------------------------------------------------------------------------------

  /** feedAppendOnlyFile rewrites relative times. */
  function WireCall<D(!new)>(env: Env<D>, c: Call): Item
    requires CallOk(env, c)
  {
    Item(c.db, Rewritten(env.proc(c.argv[0]), c.argv, c.at))
  }

  function WireCalls<D(!new)>(env: Env<D>, calls: seq<Call>): (items: seq<Item>)
    requires forall i | 0 <= i < |calls| :: CallOk(env, calls[i])
    ensures |items| == |calls| && forall i | 0 <= i < |calls| :: items[i] == WireCall(env, calls[i])
  {
    if calls == [] then [] else [WireCall(env, calls[0])] + WireCalls(env, calls[1..])
  }

  function Wire<D(!new)>(env: Env<D>, d: Done): Fed
    requires DoneOk(env, d)
  {
    match d
    case DoneOne(call) => One(call.db, WireCall(env, call).argv)
    case DoneBlock(db, calls, execDb) => Block(db, WireCalls(env, calls), execDb)
  }

  ghost predicate CallOk<D(!new)>(env: Env<D>, c: Call) {
    ItemOk(env, Item(c.db, c.argv)) && ArityOk(env.proc(c.argv[0]), c.argv)
  }

  ghost predicate DoneOk<D(!new)>(env: Env<D>, d: Done) {
    match d
    case DoneOne(call) => CallOk(env, call)
    case DoneBlock(db, calls, execDb) =>
      db < TWO_31 && execDb < TWO_31 && forall i | 0 <= i < |calls| :: CallOk(env, calls[i])
  }

  /** What the commands did to the live dataset. */
  function RunCalls<D(!new)>(env: Env<D>, data: D, calls: seq<Call>): D
    decreases |calls|
  {
    if calls == [] then data
    else RunCalls(env, Run(env, data, calls[0].db, calls[0].argv, calls[0].at), calls[1..])
  }

  function RunDone<D(!new)>(env: Env<D>, data: D, d: Done): D {
    match d
    case DoneOne(call) => Run(env, data, call.db, call.argv, call.at)
    case DoneBlock(_, calls, _) => RunCalls(env, data, calls)
  }

  /** Whenever it is loaded, what is fed for a command does what the command did. */
  lemma WiredCall<D(!new)>(env: Env<D>, data: D, c: Call)
    requires EnvOk(env) && CallOk(env, c)
    ensures Redone(env, data, c.db, WireCall(env, c).argv) == Run(env, data, c.db, c.argv, c.at)
    ensures ItemOk(env, WireCall(env, c))
  {
    hide StrToL, Printable, Deadline, Rewritten;
    var p := env.proc(c.argv[0]);
    var now := Rewritten(p, c.argv, c.at);
    RewrittenIsAbsolute(p, c.argv, c.at, env.loadTime);
    SameCore(p, c.argv, c.at);
    RewrittenPrints(p, c.argv, c.at);
    WiredName(env, c);
    DeadlineOrNone(p, c.argv, c.at, 0);
    DeadlineOrNone(RewrittenProc(p), now, env.loadTime, 0);
  }

  lemma WiredName<D(!new)>(env: Env<D>, c: Call)
    requires EnvOk(env) && CallOk(env, c)
    ensures var now := WireCall(env, c).argv;
            && now != [] && now[0] != SELECT && env.cfg.lookup(now[0]) == Plain
            && env.proc(now[0]) == RewrittenProc(env.proc(c.argv[0]))
  {
    hide StrToL, SignedDecimal, Moment, IsPx, Printable;
    assert PEXPIREAT[0] != SELECT[0];
  }

  lemma {:induction false} WiredCalls<D(!new)>(env: Env<D>, data: D, calls: seq<Call>)
    requires EnvOk(env) && forall i | 0 <= i < |calls| :: CallOk(env, calls[i])
    ensures ApplyItems(env, data, WireCalls(env, calls)) == RunCalls(env, data, calls)
    decreases |calls|
  {
    hide EnvOk, CallOk, WireCall, Run, Redone;
    if calls != [] {
      var c := calls[0];
      WiredCall(env, data, c);
      WiredCalls(env, Run(env, data, c.db, c.argv, c.at), calls[1..]);
      WiredDb(env, c);
    }
  }

  lemma WiredDb<D(!new)>(env: Env<D>, c: Call)
    requires CallOk(env, c)
    ensures WireCall(env, c).db == c.db
  {
    hide Rewritten;
  }

  /** What is fed is what the file takes, and has the effect of what was executed. */
  lemma WiredEffect<D(!new)>(env: Env<D>, data: D, d: Done)
    requires EnvOk(env) && DoneOk(env, d)
    ensures FedOk(env, Wire(env, d)) && ApplyFed(env, data, Wire(env, d)) == RunDone(env, data, d)
  {
    hide EnvOk, CallOk, WireCall, Run, Redone, ItemOk;
    match d
    case DoneOne(call) =>
      WiredCall(env, data, call);
      WiredDb(env, call);
      assert WireCall(env, call) == Item(call.db, WireCall(env, call).argv);
    case DoneBlock(db, calls, execDb) =>
      WiredCalls(env, data, calls);
      forall i | 0 <= i < |calls| ensures ItemOk(env, WireCalls(env, calls)[i]) {
        WiredCall(env, data, calls[i]);
      }
  }

  /** Replaying what was fed, at any time, changes a dataset as executing the commands did, relative times included. */
  lemma DoneEffect<D(!new)>(env: Env<D>, selected: int, d: Done, r: Replayed<D>)
    requires EnvOk(env) && DoneOk(env, d) && (selected == -1 || selected == r.db)
    ensures var f := Wire(env, d);
            && FedOk(env, f)
            && RedoAll(env, r, Effects(FedEntries(env, selected, f))) == Replayed(NewSelected(f), RunDone(env, r.data, d))
  {
    hide EnvOk, DoneOk, Wire, FedEntries, RedoAll, RunDone, ApplyFed, FedOk;
    WiredEffect(env, r.data, d);
    FedEffect(env, selected, Wire(env, d), r);
  }
}
