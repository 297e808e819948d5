/** Expansion of import directives: snippets and files, bounded only by a depth counter. */
module Imports {
  import opened Common
  import opened Parser

  datatype ImportError = ExpansionLimit | WrongArgumentCount | UnknownImport

  /** What reading a file up to, not including, the expansion of its imports gives. */
  datatype File = File(location: string, nodes: seq<Node>, snippets: Snippets)

  /** Opens the file that a name refers to from a given location. */
  type Opener = (string, string) -> Result<File, ImportError>

  datatype Expanded = Expanded(node: Node, snippets: Snippets)
  datatype Pass = Pass(nodes: seq<Node>, snippets: Snippets, imported: bool)

  const MAX_EXPANSION := 255

  function Height(depth: nat): nat {
    if depth > MAX_EXPANSION then 0 else MAX_EXPANSION + 1 - depth
  }

  function Root(nodes: seq<Node>): Node {
    Node("", [], Block(nodes), false, false)
  }

  /** Expands the imports below a node, pass after pass, until a pass finds none. */
  function Expand(open: Opener, location: string, snippets: Snippets, node: Node, depth: nat)
    : (r: Result<Expanded, ImportError>)
    ensures r.Ok? ==> r.value.node == node.(block := r.value.node.block)
    ensures r.Ok? ==> r.value.node.block.Block? == node.block.Block?
    decreases 2 * Height(depth), node, 1
  {
    match node.block
    case NoBlock => Ok(Expanded(node, snippets))
    case Block(nodes) =>
      match ExpandAll(open, location, snippets, nodes, depth)
      case Err(e) => Err(e)
      case Ok(pass) =>
        var next := node.(block := Block(pass.nodes));
        if pass.imported then Expand(open, location, pass.snippets, next, depth + 1)
        else Ok(Expanded(next, pass.snippets))
  }

  /** A pass in progress: what it has collected, and the outcome for the children still ahead. */
  function Collected(nodes: seq<Node>, imported: bool, ahead: Result<Pass, ImportError>): Result<Pass, ImportError> {
    match ahead
    case Err(e) => Err(e)
    case Ok(rest) => Ok(Pass(nodes + rest.nodes, rest.snippets, imported || rest.imported))
  }

  /** One pass over the children of a node. */
  function ExpandAll(open: Opener, location: string, snippets: Snippets, nodes: seq<Node>, depth: nat)
    : (r: Result<Pass, ImportError>)
    ensures r.Ok? && r.value.imported ==> depth <= MAX_EXPANSION
    decreases 2 * Height(depth), nodes, 0
  {
    if nodes == [] then Ok(Pass([], snippets, false))
    else
      match Expand(open, location, snippets, nodes[0], depth + 1)
      case Err(e) => Err(e)
      case Ok(child) =>
        if child.node.name != "import" then
          Collected([child.node], false, ExpandAll(open, location, child.snippets, nodes[1..], depth))
        else if depth > MAX_EXPANSION then Err(ExpansionLimit)
        else if |child.node.args| != 1 then Err(WrongArgumentCount)
        else
          match Resolve(open, location, child.snippets, child.node.args[0], depth)
          case Err(e) => Err(e)
          case Ok(found) =>
            Collected(found.nodes, true, ExpandAll(open, location, found.snippets, nodes[1..], depth))
  }

  /** A snippet is spliced in as declared; a file is expanded first, and its snippets join the table. */
  function Resolve(open: Opener, location: string, snippets: Snippets, name: string, depth: nat)
    : (r: Result<Pass, ImportError>)
    requires depth <= MAX_EXPANSION
    decreases 2 * Height(depth) - 1
  {
    if name in snippets then Ok(Pass(snippets[name], snippets, true))
    else
      match open(location, name)
      case Err(e) => Err(e)
      case Ok(file) =>
        match Expand(open, file.location, file.snippets, Root(file.nodes), depth + 1)
        case Err(e) => Err(e)
        case Ok(tree) => Ok(Pass(tree.node.block.nodes, snippets + tree.snippets, true))
  }

  // ---------------------------------------------------------------- the imperative expansion

  lemma {:induction false} CollectedMore(a: seq<Node>, i: bool, b: seq<Node>, j: bool, ahead: Result<Pass, ImportError>)
    ensures Collected([], false, ahead) == ahead
    ensures Collected(a, i, Collected(b, j, ahead)) == Collected(a + b, i || j, ahead)
  {
    if ahead.Ok? {
      ConcatAssoc(a, b, ahead.value.nodes);
      assert [] + ahead.value.nodes == ahead.value.nodes;
    }
  }

  class ImportContext {
    const open: Opener
    const location: string
    var snippets: Snippets

    constructor (open: Opener, location: string, snippets: Snippets)
      ensures this.open == open && this.location == location && this.snippets == snippets
    {
      this.open, this.location, this.snippets := open, location, snippets;
    }

    method ExpandImports(node: Node, depth: nat) returns (r: Result<Node, ImportError>)
      modifies this
      ensures match Expand(open, location, old(snippets), node, depth)
              case Err(e) => r == Err(e)
              case Ok(expanded) => r == Ok(expanded.node) && snippets == expanded.snippets
      decreases 2 * Height(depth), node, 1
    {
      if node.block.NoBlock? {
        return Ok(node);
      }
      var nodes := node.block.nodes;
      var children, imported, i := [], false, 0;
      assert nodes[0..] == nodes;
      CollectedMore([], false, [], false, ExpandAll(open, location, snippets, nodes, depth));
      while i < |nodes|
        invariant 0 <= i <= |nodes|
        invariant imported ==> depth <= MAX_EXPANSION
        invariant ExpandAll(open, location, old(snippets), nodes, depth)
               == Collected(children, imported, ExpandAll(open, location, snippets, nodes[i..], depth))
      {
        assert nodes[i..][1..] == nodes[i + 1..];
        var child := ExpandImports(nodes[i], depth + 1);
        if child.Err? {
          return Err(child.error);
        }
        if child.value.name == "import" {
          if depth > MAX_EXPANSION {
            return Err(ExpansionLimit);
          }
          if |child.value.args| != 1 {
            return Err(WrongArgumentCount);
          }
          var subtree := ResolveImport(child.value.args[0], depth);
          if subtree.Err? {
            return Err(subtree.error);
          }
          CollectedMore(children, imported, subtree.value, true, ExpandAll(open, location, snippets, nodes[i + 1..], depth));
          children, imported := children + subtree.value, true;
        } else {
          CollectedMore(children, imported, [child.value], false, ExpandAll(open, location, snippets, nodes[i + 1..], depth));
          children := children + [child.value];
        }
        i := i + 1;
      }
      assert children + [] == children;
      var next := node.(block := Block(children));
      if imported {
        r := ExpandImports(next, depth + 1);
        return;
      }
      return Ok(next);
    }

    method ResolveImport(name: string, depth: nat) returns (r: Result<seq<Node>, ImportError>)
      requires depth <= MAX_EXPANSION
      modifies this
      ensures match Resolve(open, location, old(snippets), name, depth)
              case Err(e) => r == Err(e)
              case Ok(found) => r == Ok(found.nodes) && snippets == found.snippets
      decreases 2 * Height(depth) - 1
    {
      if name in snippets {
        return Ok(snippets[name]);
      }
      var source := open(location, name);
      if source.Err? {
        return Err(source.error);
      }
      var file := source.value;
      var context := new ImportContext(open, file.location, file.snippets);
      var tree := context.ExpandImports(Root(file.nodes), depth + 1);
      if tree.Err? {
        return Err(tree.error);
      }
      snippets := snippets + context.snippets;
      return Ok(tree.value.block.nodes);
    }
  }

  // ---------------------------------------------------------------- no import remains

  ghost predicate ImportFree(node: Node) {
    node.block.NoBlock? || ImportFreeAll(node.block.nodes)
  }

  /** No node named import at any depth. */
  ghost predicate ImportFreeAll(nodes: seq<Node>) {
    nodes == [] || (nodes[0].name != "import" && ImportFree(nodes[0]) && ImportFreeAll(nodes[1..]))
  }

  /** Whenever expansion succeeds, nothing named import is left below the node. */
  lemma {:induction false} ExpandRemovesImports(open: Opener, location: string, snippets: Snippets, node: Node, depth: nat)
    requires Expand(open, location, snippets, node, depth).Ok?
    ensures ImportFree(Expand(open, location, snippets, node, depth).value.node)
    decreases 2 * Height(depth), node, 1
  {
    if node.block.Block? {
      ExpandAllRemovesImports(open, location, snippets, node.block.nodes, depth);
      var pass := ExpandAll(open, location, snippets, node.block.nodes, depth).value;
      if pass.imported {
        ExpandRemovesImports(open, location, pass.snippets, node.(block := Block(pass.nodes)), depth + 1);
      }
    }
  }

  lemma {:induction false} ExpandAllRemovesImports(open: Opener, location: string, snippets: Snippets, nodes: seq<Node>, depth: nat)
    requires ExpandAll(open, location, snippets, nodes, depth).Ok?
    ensures var pass := ExpandAll(open, location, snippets, nodes, depth).value;
            !pass.imported ==> ImportFreeAll(pass.nodes)
    decreases 2 * Height(depth), nodes, 0
  {
    if nodes != [] {
      ExpandRemovesImports(open, location, snippets, nodes[0], depth + 1);
      var child := Expand(open, location, snippets, nodes[0], depth + 1).value;
      if child.node.name != "import" {
        ExpandAllRemovesImports(open, location, child.snippets, nodes[1..], depth);
        var rest := ExpandAll(open, location, child.snippets, nodes[1..], depth).value;
        assert ([child.node] + rest.nodes)[1..] == rest.nodes;
      }
    }
  }

  // ---------------------------------------------------------------- what an import stands for

  /** Nodes, and the place and snippet table in which the names in them are resolved. */
  datatype Scope = Scope(location: string, snippets: Snippets, nodes: seq<Node>)

  /** What a name imported inside a scope refers to. */
  function Target(open: Opener, scope: Scope, name: string): Option<Scope> {
    if name in scope.snippets then Some(scope.(nodes := scope.snippets[name]))
    else
      match open(scope.location, name)
      case Err(_) => None
      case Ok(file) => Some(Scope(file.location, file.snippets, file.nodes))
  }

  /** Replaces every import by what it refers to, itself so replaced, through at most `fuel` imports
      one inside another. */
  function Substitute(open: Opener, scope: Scope, fuel: nat): Option<seq<Node>>
    decreases fuel, scope.nodes, 0
  {
    if scope.nodes == [] then Some([])
    else
      match (SubstituteNode(open, scope, scope.nodes[0], fuel), Substitute(open, scope.(nodes := scope.nodes[1..]), fuel))
      case (Some(first), Some(rest)) => Some(first + rest)
      case _ => None
  }

  function SubstituteNode(open: Opener, scope: Scope, node: Node, fuel: nat): Option<seq<Node>>
    decreases fuel, node, 1
  {
    if node.name == "import" then
      if |node.args| != 1 || fuel == 0 then None
      else
        match Target(open, scope, node.args[0])
        case None => None
        case Some(target) => Substitute(open, target, fuel - 1)
    else if node.block.NoBlock? then Some([node])
    else
      match Substitute(open, scope.(nodes := node.block.nodes), fuel)
      case None => None
      case Some(nodes) => Some([node.(block := Block(nodes))])
  }

  /** The full substitution of a scope, whatever number of imports it takes. */
  ghost predicate SubstitutesTo(open: Opener, scope: Scope, result: seq<Node>) {
    exists fuel: nat :: Substitute(open, scope, fuel) == Some(result)
  }

  lemma {:induction false} MoreFuel(open: Opener, scope: Scope, fuel: nat, more: nat)
    requires fuel <= more && Substitute(open, scope, fuel).Some?
    ensures Substitute(open, scope, more) == Substitute(open, scope, fuel)
    decreases fuel, scope.nodes, 0
  {
    if scope.nodes != [] {
      MoreFuelNode(open, scope, scope.nodes[0], fuel, more);
      MoreFuel(open, scope.(nodes := scope.nodes[1..]), fuel, more);
    }
  }

  lemma {:induction false} MoreFuelNode(open: Opener, scope: Scope, node: Node, fuel: nat, more: nat)
    requires fuel <= more && SubstituteNode(open, scope, node, fuel).Some?
    ensures SubstituteNode(open, scope, node, more) == SubstituteNode(open, scope, node, fuel)
    decreases fuel, node, 1
  {
    if node.name == "import" {
      MoreFuel(open, Target(open, scope, node.args[0]).value, fuel - 1, more - 1);
    } else if node.block.Block? {
      MoreFuel(open, scope.(nodes := node.block.nodes), fuel, more);
    }
  }

  /** The full substitution is unique. */
  lemma {:induction false} SubstitutionUnique(open: Opener, scope: Scope, a: seq<Node>, b: seq<Node>)
    requires SubstitutesTo(open, scope, a) && SubstitutesTo(open, scope, b)
    ensures a == b
  {
    var i: nat :| Substitute(open, scope, i) == Some(a);
    var j: nat :| Substitute(open, scope, j) == Some(b);
    if i <= j {
      MoreFuel(open, scope, i, j);
    } else {
      MoreFuel(open, scope, j, i);
    }
  }

  // ---------------------------------------------------------------- what imports reach

  /** The nodes import the name, at some depth. */
  ghost predicate Mentions(nodes: seq<Node>, name: string) {
    nodes != [] && (NodeMentions(nodes[0], name) || Mentions(nodes[1..], name))
  }

  ghost predicate NodeMentions(node: Node, name: string) {
    (node.name == "import" && node.args == [name]) || (node.block.Block? && Mentions(node.block.nodes, name))
  }

  /** One import leads from scope `a` to scope `b`. */
  ghost predicate Hop(open: Opener, a: Scope, b: Scope) {
    exists name :: Mentions(a.nodes, name) && Target(open, a, name) == Some(b)
  }

  ghost predicate Chain(open: Opener, path: seq<Scope>) {
    path != [] && forall i :: 0 <= i < |path| - 1 ==> Hop(open, path[i], path[i + 1])
  }

  ghost predicate Reaches(open: Opener, a: Scope, b: Scope) {
    exists path :: Chain(open, path) && path[0] == a && Last(path) == b
  }

  lemma {:induction false} ReachesSelf(open: Opener, a: Scope)
    ensures Reaches(open, a, a)
  {
    assert Chain(open, [a]) && Last([a]) == a;
  }

  lemma {:induction false} ReachesOn(open: Opener, a: Scope, b: Scope, c: Scope)
    requires Reaches(open, a, b) && Reaches(open, b, c)
    ensures Reaches(open, a, c)
  {
    var p :| Chain(open, p) && p[0] == a && Last(p) == b;
    var q :| Chain(open, q) && q[0] == b && Last(q) == c;
    var path := p + q[1..];
    forall i | 0 <= i < |path| - 1 ensures Hop(open, path[i], path[i + 1]) {
      if i < |p| - 1 {
        assert Hop(open, p[i], p[i + 1]);
      } else {
        var j := i - (|p| - 1);
        assert Hop(open, q[j], q[j + 1]) && path[i] == q[j];
      }
    }
    assert Chain(open, path) && path[0] == a && Last(path) == c;
  }

  lemma {:induction false} HopReaches(open: Opener, a: Scope, b: Scope, name: string)
    requires Mentions(a.nodes, name) && Target(open, a, name) == Some(b)
    ensures Reaches(open, a, b)
  {
    assert Hop(open, a, b);
    assert Chain(open, [a, b]) && Last([a, b]) == b;
  }

  /** The name is imported somewhere in the file of `home`, as far as it is reached. */
  ghost predicate Looked(open: Opener, home: Scope, name: string) {
    exists c :: Reaches(open, home, c) && InFile(home, c) && Mentions(c.nodes, name)
  }

  ghost predicate InFile(home: Scope, c: Scope) {
    c.location == home.location && c.snippets == home.snippets
  }

  /** Whatever is reached from `home` declares no snippet under a name that is imported in the file of `home`,
      unless that file declares the same. */
  ghost predicate CalmAt(open: Opener, home: Scope) {
    forall b, name :: Reaches(open, home, b) && Looked(open, home, name) ==> Undisturbed(home, b, name)
  }

  predicate Undisturbed(home: Scope, b: Scope, name: string) {
    name in b.snippets ==> name in home.snippets && home.snippets[name] == b.snippets[name]
  }

  /** This holds of everything reached from `root`: no import changes what a name stands for. */
  ghost predicate Calm(open: Opener, root: Scope) {
    forall a :: Reaches(open, root, a) ==> CalmAt(open, a)
  }

  lemma {:induction false} CalmOn(open: Opener, a: Scope, b: Scope)
    requires Calm(open, a) && Reaches(open, a, b)
    ensures Calm(open, b)
  {
    forall c | Reaches(open, b, c) ensures CalmAt(open, c) {
      ReachesOn(open, a, b, c);
    }
  }

  /** The table of a file while it is expanded: its own snippets, and some of those of the files it reaches. */
  ghost predicate TableOf(open: Opener, home: Scope, table: Snippets) {
    && home.snippets.Keys <= table.Keys
    && forall name :: name in table ==> Declared(open, home, name, table[name])
  }

  ghost predicate Declared(open: Opener, home: Scope, name: string, body: seq<Node>) {
    exists b :: Reaches(open, home, b) && name in b.snippets && b.snippets[name] == body
  }

  lemma {:induction false} OwnTable(open: Opener, home: Scope)
    ensures TableOf(open, home, home.snippets)
  {
    ReachesSelf(open, home);
  }

  /** A name imported in the file stands for what it stood for at first. */
  lemma {:induction false} LooksUpSame(open: Opener, home: Scope, table: Snippets, name: string)
    requires Calm(open, home) && TableOf(open, home, table) && Looked(open, home, name)
    ensures name in table <==> name in home.snippets
    ensures name in table ==> table[name] == home.snippets[name]
  {
    ReachesSelf(open, home);
    if name in table {
      assert Declared(open, home, name, table[name]);
      var b :| Reaches(open, home, b) && name in b.snippets && b.snippets[name] == table[name];
      assert CalmAt(open, home) && Undisturbed(home, b, name);
    }
  }

  ghost predicate FilesKeepTables(open: Opener) {
    forall location, name :: open(location, name).Ok? ==> open(location, name).value.snippets == map[]
  }

  lemma {:induction false} OwnOrNone(open: Opener, path: seq<Scope>)
    requires FilesKeepTables(open) && Chain(open, path)
    ensures Last(path).snippets == path[0].snippets || Last(path).snippets == map[]
    decreases |path|
  {
    if |path| > 1 {
      var shorter := Front(path);
      forall i | 0 <= i < |shorter| - 1 ensures Hop(open, shorter[i], shorter[i + 1]) {
        assert Hop(open, path[i], path[i + 1]);
      }
      OwnOrNone(open, shorter);
      assert Hop(open, path[|path| - 2], path[|path| - 2 + 1]);
    }
  }

  /** So it is where no file declares snippets, and then the table does not change. */
  lemma {:induction false} FilesKeepCalm(open: Opener, root: Scope, table: Snippets)
    requires FilesKeepTables(open)
    ensures Calm(open, root) && (TableOf(open, root, table) ==> table == root.snippets)
  {
    forall a, b | Reaches(open, a, b) ensures b.snippets == a.snippets || b.snippets == map[] {
      var path :| Chain(open, path) && path[0] == a && Last(path) == b;
      OwnOrNone(open, path);
    }
    if TableOf(open, root, table) {
      forall name | name in table ensures name in root.snippets && root.snippets[name] == table[name] {
        assert Declared(open, root, name, table[name]);
      }
    }
  }

  /** What the table of an imported file adds. */
  lemma {:induction false} TableGrows(open: Opener, home: Scope, table: Snippets, file: Scope, more: Snippets)
    requires TableOf(open, home, table) && Reaches(open, home, file) && TableOf(open, file, more)
    ensures TableOf(open, home, table + more)
  {
    forall name | name in table + more ensures Declared(open, home, name, (table + more)[name]) {
      if name in more {
        var b :| Reaches(open, file, b) && name in b.snippets && b.snippets[name] == more[name];
        ReachesOn(open, home, file, b);
      } else {
        assert Declared(open, home, name, table[name]);
      }
    }
  }

  /** Every import among the nodes is an import of the file. */
  ghost predicate Belongs(open: Opener, home: Scope, nodes: seq<Node>) {
    forall name :: Mentions(nodes, name) ==> Looked(open, home, name)
  }

  // ---------------------------------------------------------------- expansion, exactly

  /** The substitution with the code's limit, but without its passes: every block entered and every import
      followed counts as one, and no import may be met beyond the limit. A block behind an import directive
      is dropped, but has to be substitutable. */
  function Within(open: Opener, scope: Scope, depth: nat): Option<seq<Node>>
    decreases Height(depth), scope.nodes, 0
  {
    if scope.nodes == [] then Some([])
    else Join(WithinNode(open, scope, scope.nodes[0], depth), Within(open, scope.(nodes := scope.nodes[1..]), depth))
  }

  function WithinNode(open: Opener, scope: Scope, node: Node, depth: nat): Option<seq<Node>>
    decreases Height(depth), node, 1
  {
    var inner := if node.block.Block? then Within(open, scope.(nodes := node.block.nodes), depth + 1) else Some([]);
    if inner.None? then None
    else if node.name != "import" then Some([if node.block.Block? then node.(block := Block(inner.value)) else node])
    else if depth > MAX_EXPANSION || |node.args| != 1 then None
    else
      match Target(open, scope, node.args[0])
      case None => None
      case Some(target) => Within(open, target, depth + 1)
  }

  lemma {:induction false} ImportFreeWithin(open: Opener, scope: Scope, depth: nat)
    requires ImportFreeAll(scope.nodes)
    ensures Within(open, scope, depth) == Some(scope.nodes)
    decreases scope.nodes
  {
    if scope.nodes != [] {
      var node := scope.nodes[0];
      if node.block.Block? {
        ImportFreeWithin(open, scope.(nodes := node.block.nodes), depth + 1);
      }
      ImportFreeWithin(open, scope.(nodes := scope.nodes[1..]), depth);
      assert scope.nodes == [node] + scope.nodes[1..];
    }
  }

  lemma {:induction false} WithinConcat(open: Opener, scope: Scope, a: seq<Node>, b: seq<Node>, depth: nat)
    ensures Within(open, scope.(nodes := a + b), depth)
         == Join(Within(open, scope.(nodes := a), depth), Within(open, scope.(nodes := b), depth))
    decreases |a|
  {
    var front, back, whole := scope.(nodes := a), scope.(nodes := b), scope.(nodes := a + b);
    if a == [] {
      assert a + b == b;
      assert Within(open, back, depth).Some? ==> [] + Within(open, back, depth).value == Within(open, back, depth).value;
    } else {
      assert (a + b)[1..] == a[1..] + b;
      WithinConcat(open, scope, a[1..], b, depth);
      JoinAssoc(WithinNode(open, whole, a[0], depth), Within(open, scope.(nodes := a[1..]), depth), Within(open, back, depth));
    }
  }

  /** What the outcome of an expansion ought to be. */
  ghost predicate Exact(open: Opener, home: Scope, r: Result<Expanded, ImportError>, node: Node, within: Option<seq<Node>>) {
    if within.None? then r.Err?
    else r.Ok? && r.value.node == node.(block := Block(within.value)) && TableOf(open, home, r.value.snippets)
  }

  lemma {:induction false} MentionsConcat(a: seq<Node>, b: seq<Node>, name: string)
    requires Mentions(a + b, name)
    ensures Mentions(a, name) || Mentions(b, name)
    decreases |a|
  {
    if a == [] {
      assert a + b == b;
    } else if !NodeMentions(a[0], name) {
      assert (a + b)[1..] == a[1..] + b;
      MentionsConcat(a[1..], b, name);
    }
  }

  lemma {:induction false} ImportFreeMentionsNothing(nodes: seq<Node>, name: string)
    requires ImportFreeAll(nodes)
    ensures !Mentions(nodes, name)
    decreases nodes
  {
    if nodes != [] {
      if nodes[0].block.Block? {
        ImportFreeMentionsNothing(nodes[0].block.nodes, name);
      }
      ImportFreeMentionsNothing(nodes[1..], name);
    }
  }

  lemma {:induction false} BelongTogether(open: Opener, home: Scope, a: seq<Node>, b: seq<Node>)
    requires Belongs(open, home, a) && Belongs(open, home, b)
    ensures Belongs(open, home, a + b)
  {
    forall name | Mentions(a + b, name) ensures Looked(open, home, name) {
      MentionsConcat(a, b, name);
    }
  }

  lemma {:induction false} ImportFreeBelongs(open: Opener, home: Scope, nodes: seq<Node>)
    requires ImportFreeAll(nodes)
    ensures Belongs(open, home, nodes)
  {
    forall name ensures !Mentions(nodes, name) {
      ImportFreeMentionsNothing(nodes, name);
    }
  }

  /** The body of a snippet imported in the file is part of the file. */
  lemma {:induction false} SnippetBelongs(open: Opener, home: Scope, name: string)
    requires Looked(open, home, name) && name in home.snippets
    ensures Belongs(open, home, home.snippets[name])
  {
    var c :| Reaches(open, home, c) && InFile(home, c) && Mentions(c.nodes, name);
    var body := home.(nodes := home.snippets[name]);
    HopReaches(open, c, body, name);
    ReachesOn(open, home, c, body);
  }

  /** A file imported in the file is reached from it, under the same name. */
  lemma {:induction false} FileReached(open: Opener, home: Scope, name: string) returns (file: Scope)
    requires Looked(open, home, name) && name !in home.snippets && open(home.location, name).Ok?
    ensures Target(open, home, name) == Some(file) && Reaches(open, home, file)
  {
    var c :| Reaches(open, home, c) && InFile(home, c) && Mentions(c.nodes, name);
    file := Target(open, home, name).value;
    HopReaches(open, c, file, name);
    ReachesOn(open, home, c, file);
  }

  /** The expansion in passes succeeds exactly when the substitution stays within the limit, and then gives
      exactly that substitution: as long as nothing reached declares a snippet under a name that is
      imported in the file it is imported into. */
  lemma {:induction false} ExpandExactly(open: Opener, location: string, snippets: Snippets, node: Node, depth: nat)
    requires node.block.Block? && Calm(open, Scope(location, snippets, node.block.nodes))
    ensures Exact(open, Scope(location, snippets, node.block.nodes), Expand(open, location, snippets, node, depth), node,
                  Within(open, Scope(location, snippets, node.block.nodes), depth))
  {
    var home := Scope(location, snippets, node.block.nodes);
    OwnTable(open, home);
    ReachesSelf(open, home);
    ExpandInFile(open, home, snippets, node, depth);
  }

  lemma {:induction false} ExpandOnce(open: Opener, location: string, table: Snippets, node: Node, depth: nat)
    requires node.block.Block?
    ensures Expand(open, location, table, node, depth)
         == match ExpandAll(open, location, table, node.block.nodes, depth)
            case Err(e) => Err(e)
            case Ok(pass) =>
              if pass.imported then Expand(open, location, pass.snippets, node.(block := Block(pass.nodes)), depth + 1)
              else Ok(Expanded(node.(block := Block(pass.nodes)), pass.snippets))
  {
  }

  lemma {:induction false} ExpandInFile(open: Opener, home: Scope, table: Snippets, node: Node, depth: nat)
    requires Calm(open, home) && TableOf(open, home, table) && node.block.Block? && Belongs(open, home, node.block.nodes)
    ensures Exact(open, home, Expand(open, home.location, table, node, depth), node,
                  Within(open, home.(nodes := node.block.nodes), depth))
    decreases 2 * Height(depth), node, 1
  {
    var nodes := node.block.nodes;
    var pass := ExpandAll(open, home.location, table, nodes, depth);
    ExpandOnce(open, home.location, table, node, depth);
    PassExactly(open, home, table, nodes, depth);
    if pass.Ok? {
      if pass.value.imported {
        ExpandInFile(open, home, pass.value.snippets, node.(block := Block(pass.value.nodes)), depth + 1);
      } else {
        ExpandAllRemovesImports(open, home.location, table, nodes, depth);
        ImportFreeWithin(open, home.(nodes := pass.value.nodes), depth + 1);
      }
    }
  }

  /** One pass moves everything one step on: what is left stands, one deeper, for what was there. */
  ghost predicate PassExact(open: Opener, home: Scope, nodes: seq<Node>, r: Result<Pass, ImportError>, depth: nat) {
    if r.Err? then Within(open, home.(nodes := nodes), depth).None?
    else
      && TableOf(open, home, r.value.snippets) && Belongs(open, home, r.value.nodes)
      && Within(open, home.(nodes := nodes), depth) == Within(open, home.(nodes := r.value.nodes), depth + 1)
  }

  lemma {:induction false} PassExactly(open: Opener, home: Scope, table: Snippets, nodes: seq<Node>, depth: nat)
    requires Calm(open, home) && TableOf(open, home, table) && Belongs(open, home, nodes)
    ensures PassExact(open, home, nodes, ExpandAll(open, home.location, table, nodes, depth), depth)
    decreases 2 * Height(depth), nodes, 0
  {
    if nodes != [] {
      var head := HeadExactly(open, home, table, nodes[0], depth);
      if head.Some? {
        PassExactly(open, home, head.value.snippets, nodes[1..], depth);
        PassJoined(open, home, nodes, head.value, ExpandAll(open, home.location, head.value.snippets, nodes[1..], depth), depth);
      }
    }
  }

  lemma {:induction false} PassJoined(open: Opener, home: Scope, nodes: seq<Node>, head: Pass, rest: Result<Pass, ImportError>, depth: nat)
    requires nodes != [] && Belongs(open, home, head.nodes) && PassExact(open, home, nodes[1..], rest, depth)
    requires WithinNode(open, home, nodes[0], depth) == Within(open, home.(nodes := head.nodes), depth + 1)
    ensures PassExact(open, home, nodes, Collected(head.nodes, head.imported, rest), depth)
  {
    if rest.Ok? {
      WithinConcat(open, home, head.nodes, rest.value.nodes, depth + 1);
      BelongTogether(open, home, head.nodes, rest.value.nodes);
    }
  }

  /** What the pass puts in place of one child: nothing if it fails there. */
  lemma {:induction false} HeadExactly(open: Opener, home: Scope, table: Snippets, node: Node, depth: nat) returns (head: Option<Pass>)
    requires Calm(open, home) && TableOf(open, home, table) && forall name :: NodeMentions(node, name) ==> Looked(open, home, name)
    ensures WithinNode(open, home, node, depth) == if head.None? then None else Within(open, home.(nodes := head.value.nodes), depth + 1)
    ensures head.Some? ==> TableOf(open, home, head.value.snippets) && Belongs(open, home, head.value.nodes)
    ensures HeadOf(open, home.location, table, node, depth, head)
    decreases 2 * Height(depth), node, 2
  {
    var child := Expand(open, home.location, table, node, depth + 1);
    if node.block.Block? {
      ExpandInFile(open, home, table, node, depth + 1);
    }
    if child.Err? {
      head := None;
    } else if node.name != "import" {
      head := Some(Pass([child.value.node], child.value.snippets, false));
      ExpandRemovesImports(open, home.location, table, node, depth + 1);
      ImportFreeWithin(open, home.(nodes := head.value.nodes), depth + 1);
      ImportFreeBelongs(open, home, head.value.nodes);
    } else if depth > MAX_EXPANSION || |node.args| != 1 {
      head := None;
    } else {
      assert NodeMentions(node, node.args[0]);
      head := ImportExactly(open, home, child.value.snippets, node.args[0], depth);
    }
  }

  /** The pass over a child: it fails, or goes on with what was put in its place. */
  ghost predicate HeadOf(open: Opener, location: string, table: Snippets, node: Node, depth: nat, head: Option<Pass>) {
    var child := Expand(open, location, table, node, depth + 1);
    if child.Err? then head.None?
    else if node.name != "import" then head == Some(Pass([child.value.node], child.value.snippets, false))
    else if depth > MAX_EXPANSION || |node.args| != 1 then head.None?
    else head == Found(Resolve(open, location, child.value.snippets, node.args[0], depth))
  }

  function Found(r: Result<Pass, ImportError>): Option<Pass> {
    if r.Ok? then Some(r.value) else None
  }

  lemma {:induction false} ImportExactly(open: Opener, home: Scope, table: Snippets, name: string, depth: nat) returns (head: Option<Pass>)
    requires Calm(open, home) && TableOf(open, home, table) && Looked(open, home, name) && depth <= MAX_EXPANSION
    ensures head == Found(Resolve(open, home.location, table, name, depth))
    ensures head.Some? ==> TableOf(open, home, head.value.snippets) && Belongs(open, home, head.value.nodes)
    ensures (if Target(open, home, name).None? then None else Within(open, Target(open, home, name).value, depth + 1))
         == (if head.None? then None else Within(open, home.(nodes := head.value.nodes), depth + 1))
    decreases 2 * Height(depth) - 1
  {
    head := Found(Resolve(open, home.location, table, name, depth));
    LooksUpSame(open, home, table, name);
    if name in table {
      SnippetBelongs(open, home, name);
    } else if open(home.location, name).Ok? {
      var file := FileReached(open, home, name);
      FileExactly(open, home, file, depth + 1);
      var tree := Expand(open, file.location, file.snippets, Root(file.nodes), depth + 1);
      if tree.Ok? {
        FileSettled(open, home, table, file, tree.value, depth + 1);
      }
    }
  }

  /** What an expanded file leaves in the file that imports it. */
  lemma {:induction false} FileSettled(open: Opener, home: Scope, table: Snippets, file: Scope, tree: Expanded, depth: nat)
    requires TableOf(open, home, table) && Reaches(open, home, file) && TableOf(open, file, tree.snippets)
    requires Expand(open, file.location, file.snippets, Root(file.nodes), depth) == Ok(tree)
    ensures TableOf(open, home, table + tree.snippets) && Belongs(open, home, tree.node.block.nodes)
    ensures Within(open, home.(nodes := tree.node.block.nodes), depth) == Some(tree.node.block.nodes)
  {
    ExpandRemovesImports(open, file.location, file.snippets, Root(file.nodes), depth);
    ImportFreeWithin(open, home.(nodes := tree.node.block.nodes), depth);
    ImportFreeBelongs(open, home, tree.node.block.nodes);
    TableGrows(open, home, table, file, tree.snippets);
  }

  lemma {:induction false} FileExactly(open: Opener, home: Scope, file: Scope, depth: nat)
    requires Calm(open, home) && Reaches(open, home, file)
    ensures Exact(open, file, Expand(open, file.location, file.snippets, Root(file.nodes), depth), Root(file.nodes),
                  Within(open, file, depth))
    decreases 2 * Height(depth), Root(file.nodes), 2
  {
    CalmOn(open, home, file);
    OwnTable(open, file);
    ReachesSelf(open, file);
    ExpandInFile(open, file, file.snippets, Root(file.nodes), depth);
  }

  /** Within the limit, it is the full substitution. */
  lemma {:induction false} WithinSubstitutes(open: Opener, scope: Scope, depth: nat)
    requires Within(open, scope, depth).Some?
    ensures Substitute(open, scope, Height(depth)) == Within(open, scope, depth)
    decreases Height(depth), scope.nodes, 0
  {
    if scope.nodes != [] {
      WithinNodeSubstitutes(open, scope, scope.nodes[0], depth);
      WithinSubstitutes(open, scope.(nodes := scope.nodes[1..]), depth);
    }
  }

  lemma {:induction false} WithinNodeSubstitutes(open: Opener, scope: Scope, node: Node, depth: nat)
    requires WithinNode(open, scope, node, depth).Some?
    ensures SubstituteNode(open, scope, node, Height(depth)) == WithinNode(open, scope, node, depth)
    decreases Height(depth), node, 1
  {
    if node.name == "import" {
      WithinSubstitutes(open, Target(open, scope, node.args[0]).value, depth + 1);
    } else if node.block.Block? {
      var inner := scope.(nodes := node.block.nodes);
      WithinSubstitutes(open, inner, depth + 1);
      MoreFuel(open, inner, Height(depth + 1), Height(depth));
    }
  }

  /** On success the result is the full substitution. */
  lemma {:induction false} ExpandSubstitutes(open: Opener, location: string, snippets: Snippets, node: Node, depth: nat)
    requires node.block.Block? && Calm(open, Scope(location, snippets, node.block.nodes))
    requires Expand(open, location, snippets, node, depth).Ok?
    ensures SubstitutesTo(open, Scope(location, snippets, node.block.nodes),
                          Expand(open, location, snippets, node, depth).value.node.block.nodes)
  {
    ExpandExactly(open, location, snippets, node, depth);
    WithinSubstitutes(open, Scope(location, snippets, node.block.nodes), depth);
  }

  // ---------------------------------------------------------------- cycles

  /** What is imported in a scope within the limit is within the limit itself, further down. */
  lemma {:induction false} WithinMentioned(open: Opener, scope: Scope, depth: nat, name: string) returns (deeper: nat)
    requires Within(open, scope, depth).Some? && Mentions(scope.nodes, name) && Target(open, scope, name).Some?
    ensures depth < deeper <= MAX_EXPANSION + 1 && Within(open, Target(open, scope, name).value, deeper).Some?
    decreases scope.nodes
  {
    var node := scope.nodes[0];
    if !NodeMentions(node, name) {
      deeper := WithinMentioned(open, scope.(nodes := scope.nodes[1..]), depth, name);
    } else if node.name == "import" && node.args == [name] {
      deeper := depth + 1;
    } else {
      deeper := WithinMentioned(open, scope.(nodes := node.block.nodes), depth + 1, name);
    }
  }

  lemma {:induction false} WithinChain(open: Opener, path: seq<Scope>, depth: nat) returns (deeper: nat)
    requires Chain(open, path) && Within(open, path[0], depth).Some?
    ensures Within(open, Last(path), deeper).Some? && depth <= deeper
    ensures (|path| > 1 ==> depth < deeper) && (depth < deeper ==> deeper <= MAX_EXPANSION + 1)
    decreases |path|
  {
    if |path| == 1 {
      deeper := depth;
    } else {
      assert Hop(open, path[0], path[1]);
      var name :| Mentions(path[0].nodes, name) && Target(open, path[0], name) == Some(path[1]);
      deeper := WithinMentioned(open, path[0], depth, name);
      forall i | 0 <= i < |path[1..]| - 1 ensures Hop(open, path[1..][i], path[1..][i + 1]) {
        assert Hop(open, path[i + 1], path[i + 2]);
      }
      deeper := WithinChain(open, path[1..], deeper);
    }
  }

  lemma {:induction false} CycleNeverWithin(open: Opener, cycle: seq<Scope>, depth: nat)
    requires Chain(open, cycle) && |cycle| > 1 && Last(cycle) == cycle[0]
    ensures Within(open, cycle[0], depth).None?
    decreases Height(depth)
  {
    if Within(open, cycle[0], depth).Some? {
      var deeper := WithinChain(open, cycle, depth);
      CycleNeverWithin(open, cycle, deeper);
    }
  }

  /** A configuration from which imports can run in a circle, through snippets or files, is refused, as long
      as no import changes what a name stands for. */
  lemma {:induction false} ImportCyclesFail(open: Opener, location: string, snippets: Snippets, nodes: seq<Node>, depth: nat, cycle: seq<Scope>)
    requires Calm(open, Scope(location, snippets, nodes))
    requires Chain(open, cycle) && |cycle| > 1 && Last(cycle) == cycle[0]
    requires Reaches(open, Scope(location, snippets, nodes), cycle[0])
    ensures Expand(open, location, snippets, Root(nodes), depth).Err?
  {
    var root := Scope(location, snippets, nodes);
    ExpandExactly(open, location, snippets, Root(nodes), depth);
    if Within(open, root, depth).Some? {
      var path :| Chain(open, path) && path[0] == root && Last(path) == cycle[0];
      var deeper := WithinChain(open, path, depth);
      CycleNeverWithin(open, cycle, deeper);
    }
  }

  function Import(name: string): Node {
    Node("import", [name], NoBlock, false, false)
  }

  /** A circle that is not refused: the snippet A imports itself, but the file F, imported after it, declares
      an empty snippet of that name, and on the second pass A stands for nothing. */
  lemma {:induction false} CycleSurvives(open: Opener, location: string, elsewhere: string)
    requires open(location, "F") == Ok(File(elsewhere, [], map["A" := []]))
    ensures var root := Scope(location, map["A" := [Import("A")]], [Import("A"), Import("F")]);
            var circle := root.(nodes := [Import("A")]);
            && Chain(open, [circle, circle]) && Reaches(open, root, circle) && !Calm(open, root)
            && Expand(open, location, root.snippets, Root(root.nodes), 0).Ok?
  {
    var root := Scope(location, map["A" := [Import("A")]], [Import("A"), Import("F")]);
    var circle := root.(nodes := [Import("A")]);
    assert NodeMentions(Import("A"), "A") && NodeMentions(Import("F"), "F");
    assert Mentions(circle.nodes, "A") && Mentions(root.nodes, "A");
    assert Mentions(root.nodes, "F") by {
      assert root.nodes[1..] == [Import("F")];
    }
    assert Hop(open, circle, circle);
    HopReaches(open, root, circle, "A");
    assert !CalmAt(open, root) by {
      var file := Scope(elsewhere, map["A" := []], []);
      HopReaches(open, root, file, "F");
      ReachesSelf(open, root);
      assert Looked(open, root, "A");
    }
    ReachesSelf(open, root);
    PassesOverCycle(open, location, elsewhere);
  }

  lemma {:induction false} PassesOverCycle(open: Opener, location: string, elsewhere: string)
    requires open(location, "F") == Ok(File(elsewhere, [], map["A" := []]))
    ensures Expand(open, location, map["A" := [Import("A")]], Root([Import("A"), Import("F")]), 0).Ok?
  {
    var table, empty: Snippets := map["A" := [Import("A")]], map["A" := []];
    assert Expand(open, elsewhere, empty, Root([]), 1) == Ok(Expanded(Root([]), empty));
    assert table + empty == empty;
    assert Resolve(open, location, table, "F", 0) == Ok(Pass([], empty, true));
    assert [Import("A"), Import("F")][1..] == [Import("F")] && [Import("F")][1..] == [] && [Import("A")][1..] == [];
    assert ExpandAll(open, location, table, [Import("F")], 0) == Ok(Pass([] + [], empty, true));
    assert ExpandAll(open, location, table, [Import("A"), Import("F")], 0) == Ok(Pass([Import("A")] + ([] + []), empty, true));
    assert [Import("A")] + ([] + []) == [Import("A")];
    assert ExpandAll(open, location, empty, [Import("A")], 1) == Ok(Pass([] + [], empty, true));
    assert ExpandAll(open, location, empty, [], 2) == Ok(Pass([], empty, false));
    assert Expand(open, location, empty, Root([]), 2) == Ok(Expanded(Root([]), empty));
    assert Expand(open, location, empty, Root([Import("A")]), 1) == Expand(open, location, empty, Root([] + []), 2);
  }

  // ---------------------------------------------------------------- files of shared snippets

  lemma {:induction false} ImportFreeStays(open: Opener, location: string, table: Snippets, node: Node, depth: nat)
    requires ImportFree(node)
    ensures Expand(open, location, table, node, depth) == Ok(Expanded(node, table))
    decreases node, 1
  {
    if node.block.Block? {
      ImportFreeAllStay(open, location, table, node.block.nodes, depth);
    }
  }

  lemma {:induction false} ImportFreeAllStay(open: Opener, location: string, table: Snippets, nodes: seq<Node>, depth: nat)
    requires ImportFreeAll(nodes)
    ensures ExpandAll(open, location, table, nodes, depth) == Ok(Pass(nodes, table, false))
    decreases nodes, 0
  {
    if nodes != [] {
      ImportFreeStays(open, location, table, nodes[0], depth + 1);
      ImportFreeAllStay(open, location, table, nodes[1..], depth);
      assert nodes == [nodes[0]] + nodes[1..];
    }
  }

  function ImportsOf(names: seq<string>): seq<Node> {
    if names == [] then [] else [Import(names[0])] + ImportsOf(names[1..])
  }

  function Bodies(table: Snippets, names: seq<string>): seq<Node>
    requires forall i :: 0 <= i < |names| ==> names[i] in table
  {
    if names == [] then [] else table[names[0]] + Bodies(table, names[1..])
  }

  ghost predicate ImportFreeSnippets(table: Snippets, names: seq<string>) {
    forall i :: 0 <= i < |names| ==> names[i] in table && ImportFreeAll(table[names[i]])
  }

  lemma {:induction false} ImportFreeConcat(a: seq<Node>, b: seq<Node>)
    requires ImportFreeAll(a) && ImportFreeAll(b)
    ensures ImportFreeAll(a + b)
  {
    if a == [] {
      assert a + b == b;
    } else {
      assert (a + b)[0] == a[0] && (a + b)[1..] == a[1..] + b;
      ImportFreeConcat(a[1..], b);
    }
  }

  /** One pass over imports of snippets. */
  lemma {:induction false} SnippetsSpliced(open: Opener, location: string, table: Snippets, names: seq<string>)
    requires ImportFreeSnippets(table, names)
    ensures ExpandAll(open, location, table, ImportsOf(names), 0) == Ok(Pass(Bodies(table, names), table, names != []))
    ensures ImportFreeAll(Bodies(table, names))
    decreases |names|
  {
    if names != [] {
      assert forall i :: 0 <= i < |names| - 1 ==> names[1..][i] == names[i + 1];
      SnippetsSpliced(open, location, table, names[1..]);
      ImportFreeConcat(table[names[0]], Bodies(table, names[1..]));
      var nodes := ImportsOf(names);
      assert nodes[0] == Import(names[0]) && nodes[1..] == ImportsOf(names[1..]);
    }
  }

  /** A file that holds snippets is imported, and then any of them, or of those there were: each import stands
      for the body, with a snippet of the file in place of one of the same name. */
  lemma {:induction false} SharedSnippets(open: Opener, location: string, table: Snippets, name: string, file: File, names: seq<string>)
    requires name !in table && open(location, name) == Ok(file) && ImportFreeAll(file.nodes)
    requires ImportFreeSnippets(table + file.snippets, names)
    ensures Expand(open, location, table, Root([Import(name)] + ImportsOf(names)), 0)
         == Ok(Expanded(Root(file.nodes + Bodies(table + file.snippets, names)), table + file.snippets))
  {
    var all := table + file.snippets;
    var nodes, result := [Import(name)] + ImportsOf(names), file.nodes + Bodies(all, names);
    assert ImportFree(Root(file.nodes));
    ImportFreeStays(open, file.location, file.snippets, Root(file.nodes), 1);
    assert Resolve(open, location, table, name, 0) == Ok(Pass(file.nodes, all, true));
    SnippetsSpliced(open, location, all, names);
    assert nodes[0] == Import(name) && nodes[1..] == ImportsOf(names);
    assert ExpandAll(open, location, table, nodes, 0) == Ok(Pass(result, all, true));
    ImportFreeConcat(file.nodes, Bodies(all, names));
    ImportFreeAllStay(open, location, all, result, 1);
  }
}
