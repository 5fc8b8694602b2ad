/**
 How scripts/portal-catalogue-drift.py reads the applied state: a worklist over a tree of
 modules of any depth, collecting what the MCP server resources say.
 */
module ModuleWorklist {
  import opened Wrappers

  // Of a resource: whether it is an MCP server, and its id and account, empty when there is none.
  datatype Resource = Resource(mcpServer: bool, id: string, account: string)

  datatype Module = Module(resources: seq<Resource>, children: seq<Module>)

  datatype Field = Id | Account

  function ValueOf(r: Resource, field: Field): string {
    if field.Id? then r.id else r.account
  }

  /** The values that the MCP servers among these resources have for the field. */
  function Values(resources: seq<Resource>, field: Field): set<string> {
    set r | r in resources && r.mcpServer && ValueOf(r, field) != "" :: ValueOf(r, field)
  }

  // ---------------------------------------------------------------- the tree

  function Size(m: Module): nat {
    1 + TotalSize(m.children)
  }

  function TotalSize(ms: seq<Module>): nat {
    if ms == [] then 0 else TotalSize(ms[..|ms| - 1]) + Size(ms[|ms| - 1])
  }

  lemma {:induction false} TotalSizeOfBoth(a: seq<Module>, b: seq<Module>)
    ensures TotalSize(a + b) == TotalSize(a) + TotalSize(b)
  {
    if b == [] {
      assert a + b == a;
    } else {
      TotalSizeOfBoth(a, b[..|b| - 1]);
      assert (a + b)[..|a + b| - 1] == a + b[..|b| - 1];
    }
  }

  /** A module of the tree, by the way down to it. */
  function ModuleAt(m: Module, path: seq<nat>): Option<Module>
    decreases |path|
  {
    if path == [] then Some(m)
    else if path[0] < |m.children| then ModuleAt(m.children[path[0]], path[1..]) else None
  }

  predicate HasValueAt(m: Module, path: seq<nat>, field: Field, value: string) {
    ModuleAt(m, path).Some? && value in Values(ModuleAt(m, path).value.resources, field)
  }

  /** Some module of the tree, however deep, has a resource with the value. */
  ghost predicate Holds(m: Module, field: Field, value: string) {
    exists path :: HasValueAt(m, path, field, value)
  }

  ghost predicate AnyHolds(ms: seq<Module>, field: Field, value: string) {
    exists i :: 0 <= i < |ms| && Holds(ms[i], field, value)
  }

  lemma HoldsHereOrBelow(m: Module, field: Field, value: string)
    ensures Holds(m, field, value) <==> value in Values(m.resources, field) || AnyHolds(m.children, field, value)
  {
    if Holds(m, field, value) {
      var path :| HasValueAt(m, path, field, value);
      assert path != [] ==> HasValueAt(m.children[path[0]], path[1..], field, value);
    }
    if value in Values(m.resources, field) {
      assert HasValueAt(m, [], field, value);
    }
    if AnyHolds(m.children, field, value) {
      var i :| 0 <= i < |m.children| && Holds(m.children[i], field, value);
      var path :| HasValueAt(m.children[i], path, field, value);
      assert ([i] + path)[1..] == path;
      assert HasValueAt(m, [i] + path, field, value);
    }
  }

  lemma AnyOfBoth(a: seq<Module>, b: seq<Module>, field: Field, value: string)
    ensures AnyHolds(a + b, field, value) <==> AnyHolds(a, field, value) || AnyHolds(b, field, value)
  {
    assert forall i :: 0 <= i < |a| ==> (a + b)[i] == a[i];
    assert forall i :: 0 <= i < |b| ==> (a + b)[|a| + i] == b[i];
    if AnyHolds(b, field, value) {
      var i :| 0 <= i < |b| && Holds(b[i], field, value);
      assert Holds((a + b)[|a| + i], field, value);
    }
    if AnyHolds(a, field, value) {
      var i :| 0 <= i < |a| && Holds(a[i], field, value);
      assert Holds((a + b)[i], field, value);
    }
  }

  // ---------------------------------------------------------------- the worklist

  lemma RootAlone(root: Module, field: Field, value: string)
    ensures AnyHolds([root], field, value) <==> Holds(root, field, value)
  {
    assert [root][0] == root;
  }

  /** A module taken off the stack: its own resources, and its children in its place. */
  lemma Replaced(rest: seq<Module>, m: Module, field: Field, value: string)
    ensures AnyHolds(rest + [m], field, value)
       <==> value in Values(m.resources, field) || AnyHolds(rest + m.children, field, value)
  {
    AnyOfBoth(rest, [m], field, value);
    RootAlone(m, field, value);
    HoldsHereOrBelow(m, field, value);
    AnyOfBoth(rest, m.children, field, value);
  }

  lemma StackShrinks(rest: seq<Module>, m: Module)
    ensures TotalSize(rest + m.children) < TotalSize(rest + [m])
  {
    TotalSizeOfBoth(rest, m.children);
    assert (rest + [m])[..|rest|] == rest;
  }

  /** The loop of server_ids_from_state() and account_from_state(): it ends, and sees every resource of the tree. */
  method Collect(root: Module, field: Field) returns (found: set<string>)
    ensures forall v :: v in found <==> Holds(root, field, v)
  {
    var stack := [root];
    found := {};
    forall v ensures AnyHolds(stack, field, v) <==> Holds(root, field, v) {
      RootAlone(root, field, v);
    }
    while stack != []
      invariant forall v :: Holds(root, field, v) <==> v in found || AnyHolds(stack, field, v)
      decreases TotalSize(stack)
    {
      var (rest, m) := (stack[..|stack| - 1], stack[|stack| - 1]);
      assert stack == rest + [m];
      StackShrinks(rest, m);
      forall v ensures AnyHolds(stack, field, v)
                  <==> v in Values(m.resources, field) || AnyHolds(rest + m.children, field, v) {
        Replaced(rest, m, field, v);
      }
      var own := CollectOwn(m.resources, field);
      found := found + own;
      stack := rest + m.children;
    }
  }

  method CollectOwn(resources: seq<Resource>, field: Field) returns (found: set<string>)
    ensures found == Values(resources, field)
  {
    found := {};
    for i := 0 to |resources|
      invariant found == Values(resources[..i], field)
    {
      var value := ValueOf(resources[i], field);
      assert resources[..i + 1] == resources[..i] + [resources[i]];
      if resources[i].mcpServer && value != "" {
        found := found + {value};
      }
    }
    assert resources[..|resources|] == resources;
  }

  /** An MCP server in the module that the path leads to. */
  predicate IsServerAt(root: Module, path: seq<nat>, r: Resource) {
    ModuleAt(root, path).Some? && r in ModuleAt(root, path).value.resources && r.mcpServer
  }

  /** The id of an MCP server anywhere in the tree. */
  ghost predicate IsServerId(root: Module, id: string) {
    id != "" && exists path, r :: IsServerAt(root, path, r) && r.id == id
  }

  /** The account of one. */
  ghost predicate IsAccount(root: Module, account: string) {
    account != "" && exists path, r :: IsServerAt(root, path, r) && r.account == account
  }

  lemma HoldsExactly(root: Module, value: string)
    ensures Holds(root, Id, value) <==> IsServerId(root, value)
    ensures Holds(root, Account, value) <==> IsAccount(root, value)
  {
    if path :| HasValueAt(root, path, Id, value) {
      var r :| r in ModuleAt(root, path).value.resources && r.mcpServer && ValueOf(r, Id) == value && value != "";
      assert IsServerAt(root, path, r);
    }
    if path :| HasValueAt(root, path, Account, value) {
      var r :| r in ModuleAt(root, path).value.resources && r.mcpServer && ValueOf(r, Account) == value && value != "";
      assert IsServerAt(root, path, r);
    }
    if IsServerId(root, value) {
      var path, r :| IsServerAt(root, path, r) && r.id == value;
      assert value == ValueOf(r, Id);
      assert HasValueAt(root, path, Id, value);
    }
    if IsAccount(root, value) {
      var path, r :| IsServerAt(root, path, r) && r.account == value;
      assert value == ValueOf(r, Account);
      assert HasValueAt(root, path, Account, value);
    }
  }

  /** server_ids_from_state() */
  method ServerIdsFromState(root: Module) returns (ids: set<string>)
    ensures forall v :: v in ids <==> IsServerId(root, v)
  {
    ids := Collect(root, Id);
    forall v ensures Holds(root, Id, v) <==> IsServerId(root, v) {
      HoldsExactly(root, v);
    }
  }

  /** account_from_state(): the account, when the servers of the tree name exactly one. */
  method AccountFromState(root: Module) returns (account: Option<string>)
    ensures account.Some? ==> forall v :: IsAccount(root, v) <==> v == account.value
    ensures account.None? ==> !exists a :: IsAccount(root, a) && forall v :: IsAccount(root, v) ==> v == a
  {
    var found := Collect(root, Account);
    forall v ensures Holds(root, Account, v) <==> IsAccount(root, v) {
      HoldsExactly(root, v);
    }
    if |found| != 1 {
      NotExactlyOne(found);
      return None;
    }
    var a :| a in found;
    OnlyMember(found, a);
    account := Some(a);
  }

  lemma OnlyMember(found: set<string>, a: string)
    requires |found| == 1 && a in found
    ensures found == {a}
  {
    assert |found - {a}| == 0;
  }

  lemma NotExactlyOne(found: set<string>)
    requires |found| != 1
    ensures forall a :: a in found ==> exists v :: v in found && v != a
  {
    forall a | a in found ensures exists v :: v in found && v != a {
      assert |found - {a}| == |found| - 1 > 0;
      var v :| v in found - {a};
    }
  }
}
