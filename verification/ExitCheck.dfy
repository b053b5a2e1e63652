/** The analyzer that looks for os.Exit in main: a preorder walk over the syntax tree with
    one mutable flag. */
module ExitCheck {
  datatype Expr = Ident(name: string) | Selector(x: Expr, sel: string) | CallExpr(fun: Expr, pos: int) | OtherExpr
  datatype Kind = FuncDecl(name: string, isMethod: bool) | ExprStmt(x: Expr) | OtherKind
  datatype Node = Node(kind: Kind, children: seq<Node>)

  /** ASCII part of ast.IsExported. */
  predicate IsExported(name: string) { name != [] && 'A' <= name[0] <= 'Z' }

  /** The statement is a direct call of os.Exit. */
  predicate IsExit(k: Kind) {
    k.ExprStmt? && k.x.CallExpr? && k.x.fun.Selector? && IsExported(k.x.fun.sel) &&
    k.x.fun.x.Ident? && k.x.fun.sel == "Exit" && k.x.fun.x.name == "os"
  }

  /** A call of an identifier's member counts exactly when it reads os.Exit, and nothing else does. */
  lemma ExitExactly(k: Kind)
    ensures IsExit(k) <==> exists pos :: k == ExprStmt(CallExpr(Selector(Ident("os"), "Exit"), pos))
  {
    if IsExit(k) {
      assert k == ExprStmt(CallExpr(Selector(Ident("os"), "Exit"), k.x.pos));
    }
  }

  /** The nodes in the order in which ast.Inspect visits them. */
  function Preorder(n: Node): seq<Kind>
    decreases n, 1
  {
    [n.kind] + PreorderAll(n.children)
  }

  function PreorderAll(ns: seq<Node>): seq<Kind>
    decreases ns, 0
  {
    if ns == [] then [] else Preorder(ns[0]) + PreorderAll(ns[1..])
  }

  lemma PreorderStart(visited: seq<Kind>, n: Node)
    requires |visited| > 0 && visited[|visited| - 1] == n.kind
    ensures visited + PreorderAll(n.children[0..]) == visited[..|visited| - 1] + Preorder(n)
  {
    assert n.children[0..] == n.children;
  }

  lemma PreorderNext(visited: seq<Kind>, ns: seq<Node>, i: nat)
    requires i < |ns|
    ensures visited + PreorderAll(ns[i..]) == visited + Preorder(ns[i]) + PreorderAll(ns[i + 1..])
  {
    assert ns[i..][1..] == ns[i + 1..];
  }

  /** The flag after a visit of these nodes. */
  function FlagAfter(ks: seq<Kind>, flag: bool): bool {
    if ks == [] then flag
    else if ks[|ks| - 1].FuncDecl? then ks[|ks| - 1].name == "main"
    else FlagAfter(ks[..|ks| - 1], flag)
  }

  /** The positions reported during the visit. */
  function Reports(ks: seq<Kind>, flag: bool): seq<int> {
    if ks == [] then []
    else
      var front := ks[..|ks| - 1];
      var last := ks[|ks| - 1];
      Reports(front, flag) + if IsExit(last) && FlagAfter(front, flag) then [last.x.pos] else []
  }

  class Inspector {
    var insideMainFunc: bool
    var reports: seq<int>
    ghost var visited: seq<Kind>

    ghost predicate Valid()
      reads this
    {
      insideMainFunc == FlagAfter(visited, false) && reports == Reports(visited, false)
    }

    constructor ()
      ensures Valid() && visited == []
    {
      insideMainFunc, reports, visited := false, [], [];
    }

    method InspectExpr(x: Expr)
      modifies this`reports
      ensures reports == old(reports) + if IsExit(ExprStmt(x)) && insideMainFunc then [x.pos] else []
    {
      if !insideMainFunc {
        return;
      }
      if !x.CallExpr? {
        return;
      }
      var selector := x.fun;
      if !selector.Selector? || !IsExported(selector.sel) {
        return;
      }
      var pkg := selector.x;
      if !pkg.Ident? {
        return;
      }
      if selector.sel == "Exit" && pkg.name == "os" {
        reports := reports + [x.pos];
      }
    }

    method Visit(k: Kind)
      requires Valid()
      modifies this
      ensures Valid() && visited == old(visited) + [k]
    {
      match k {
        case ExprStmt(x) => InspectExpr(x);
        case FuncDecl(name, _) =>
          if name == "main" {
            insideMainFunc := true;
          } else {
            insideMainFunc := false;
          }
        case OtherKind =>
      }
      visited := visited + [k];
      assert visited[..|visited| - 1] == old(visited);
    }

    /** ast.Inspect with this visitor, which always asks for the children. */
    method Inspect(n: Node)
      requires Valid()
      modifies this
      ensures Valid() && visited == old(visited) + Preorder(n)
      decreases n
    {
      Visit(n.kind);
      PreorderStart(visited, n);
      for i := 0 to |n.children|
        invariant Valid() && visited + PreorderAll(n.children[i..]) == old(visited) + Preorder(n)
      {
        PreorderNext(visited, n.children, i);
        Inspect(n.children[i]);
      }
    }
  }

  datatype File = File(package: string, filename: string, root: Node)

  function Suffix(s: string, n: nat): string { if |s| < n then s else s[|s| - n..] }

  predicate Selected(f: File) { f.package == "main" && ".go" == Suffix(f.filename, 3) }

  function AllReports(files: seq<File>): seq<int> {
    if files == [] then []
    else
      var f := files[|files| - 1];
      AllReports(files[..|files| - 1]) + if Selected(f) then Reports(Preorder(f.root), false) else []
  }

  /** Every selected file is walked with a flag of its own. */
  method Run(files: seq<File>) returns (reports: seq<int>)
    ensures reports == AllReports(files)
  {
    reports := [];
    for i := 0 to |files|
      invariant reports == AllReports(files[..i])
    {
      assert files[..i + 1][..i] == files[..i];
      if files[i].package != "main" {
        continue;
      }
      if Suffix(files[i].filename, 3) != ".go" {
        continue;
      }
      var v := new Inspector();
      v.Inspect(files[i].root);
      assert v.visited == Preorder(files[i].root);
      reports := reports + v.reports;
    }
    assert files[..|files|] == files;
  }

  /** A file counts exactly when it is of package main and its name ends in .go; its reports
      follow those of the files before it, from a fresh flag. */
  lemma FileCountsExactly(files: seq<File>, package: string, filename: string, root: Node)
    ensures AllReports(files + [File(package, filename, root)]) ==
      AllReports(files) +
      if package == "main" && exists stem: string :: filename == stem + ".go"
      then Reports(Preorder(root), false) else []
    ensures AllReports([]) == []
  {
    var f := File(package, filename, root);
    assert (files + [f])[..|files|] == files;
    if stem: string :| filename == stem + ".go" {
      assert Suffix(filename, 3) == ".go";
    }
    if Suffix(filename, 3) == ".go" {
      assert filename == filename[..|filename| - 3] + ".go";
    }
  }

  // ---------------------------------------------------------------- what is reported

  /** Node j is the nearest function or method declaration before node i, and it is named main. */
  ghost predicate NearestIsMain(ks: seq<Kind>, i: nat, j: int) {
    && 0 <= j < i && j < |ks| && ks[j].FuncDecl? && ks[j].name == "main"
    && forall h :: j < h < i && h < |ks| ==> !ks[h].FuncDecl?
  }

  ghost predicate UnderMain(ks: seq<Kind>, i: nat) {
    exists j :: NearestIsMain(ks, i, j)
  }

  /** The positions of the os.Exit statements among the first n nodes that have main as
      their nearest preceding function declaration, in visiting order. */
  ghost function ExitsUnderMain(ks: seq<Kind>, n: nat): seq<int>
    requires n <= |ks|
  {
    if n == 0 then []
    else ExitsUnderMain(ks, n - 1) + if IsExit(ks[n - 1]) && UnderMain(ks, n - 1) then [ks[n - 1].x.pos] else []
  }

  lemma {:induction false} FlagIsUnderMain(ks: seq<Kind>, n: nat)
    requires n <= |ks|
    ensures FlagAfter(ks[..n], false) <==> UnderMain(ks, n)
  {
    if n > 0 {
      FlagIsUnderMain(ks, n - 1);
      assert ks[..n][..n - 1] == ks[..n - 1];
      if ks[n - 1].FuncDecl? {
        assert forall j :: NearestIsMain(ks, n, j) ==> j == n - 1;
        assert ks[n - 1].name == "main" <==> NearestIsMain(ks, n, n - 1);
      } else {
        var m := n - 1;
        if j :| NearestIsMain(ks, n, j) {
          assert NearestIsMain(ks, m, j);
        }
        if j :| NearestIsMain(ks, m, j) {
          assert NearestIsMain(ks, n, j);
        }
      }
    }
  }

  /** For every tree the walk reports exactly the os.Exit statements whose nearest preceding
      function declaration is named main, in order. */
  lemma {:induction false} ReportsExactly(ks: seq<Kind>, n: nat)
    requires n <= |ks|
    ensures Reports(ks[..n], false) == ExitsUnderMain(ks, n)
  {
    if n > 0 {
      ReportsExactly(ks, n - 1);
      FlagIsUnderMain(ks, n - 1);
      assert ks[..n][..n - 1] == ks[..n - 1];
    }
  }

  // ---------------------------------------------------------------- against nesting

  predicate NoFunc(ks: seq<Kind>) {
    forall i :: 0 <= i < |ks| ==> !ks[i].FuncDecl?
  }

  /** A top-level declaration: no statement, and no function declared inside. */
  predicate IsDecl(d: Node) {
    NoFunc(PreorderAll(d.children)) && !d.kind.ExprStmt?
  }

  /** Go allows function declarations at the top of a file only. */
  predicate WellFormed(file: Node) {
    file.kind.OtherKind? && forall i :: 0 <= i < |file.children| ==> IsDecl(file.children[i])
  }

  /** Every os.Exit statement in these nodes. */
  function Exits(ks: seq<Kind>): seq<int> {
    if ks == [] then []
    else
      var last := ks[|ks| - 1];
      Exits(ks[..|ks| - 1]) + if IsExit(last) then [last.x.pos] else []
  }

  /** Every os.Exit statement that is nested in the declaration of the function main; a
      method of that name is not it. */
  function Nested(decls: seq<Node>): seq<int> {
    if decls == [] then []
    else
      var last := decls[|decls| - 1];
      var inMain := last.kind == FuncDecl("main", false);
      Nested(decls[..|decls| - 1]) + if inMain then Exits(PreorderAll(last.children)) else []
  }

  /** The nearest function or method declaration at or before the end of decls is named main. */
  function AfterMain(decls: seq<Node>): bool {
    if decls == [] then false
    else if decls[|decls| - 1].kind.FuncDecl? then decls[|decls| - 1].kind.name == "main"
    else AfterMain(decls[..|decls| - 1])
  }

  /** Declaration i holds an os.Exit statement and is a method main, or is neither function
      nor method and follows a declaration named main with no other in between. */
  ghost predicate Stray(decls: seq<Node>, i: nat) {
    && i < |decls| && Exits(PreorderAll(decls[i].children)) != []
    && (decls[i].kind == FuncDecl("main", true) || (!decls[i].kind.FuncDecl? && AfterMain(decls[..i])))
  }

  lemma {:induction false} WalkConcat(a: seq<Kind>, b: seq<Kind>, flag: bool)
    ensures FlagAfter(a + b, flag) == FlagAfter(b, FlagAfter(a, flag))
    ensures Reports(a + b, flag) == Reports(a, flag) + Reports(b, FlagAfter(a, flag))
    decreases |b|
  {
    if b == [] {
      assert a + b == a;
    } else {
      assert (a + b)[..|a + b| - 1] == a + b[..|b| - 1];
      WalkConcat(a, b[..|b| - 1], flag);
    }
  }

  lemma {:induction false} WalkInside(ks: seq<Kind>, flag: bool)
    requires NoFunc(ks)
    ensures FlagAfter(ks, flag) == flag
    ensures Reports(ks, flag) == if flag then Exits(ks) else []
  {
    if ks != [] {
      WalkInside(ks[..|ks| - 1], flag);
    }
  }

  lemma {:induction false} PreorderSnoc(ns: seq<Node>, n: Node)
    ensures PreorderAll(ns + [n]) == PreorderAll(ns) + Preorder(n)
  {
    if ns == [] {
      assert ns + [n] == [n];
      assert PreorderAll([n]) == Preorder(n) + PreorderAll([n][1..]);
    } else {
      assert (ns + [n])[1..] == ns[1..] + [n];
      PreorderSnoc(ns[1..], n);
    }
  }

  /** What the walk reports in one declaration, given the flag before it. */
  function DeclReports(d: Node, flag: bool): seq<int> {
    if (if d.kind.FuncDecl? then d.kind.name == "main" else flag) then Exits(PreorderAll(d.children)) else []
  }

  lemma WalkDecl(d: Node, flag: bool)
    requires IsDecl(d)
    ensures FlagAfter(Preorder(d), flag) == if d.kind.FuncDecl? then d.kind.name == "main" else flag
    ensures Reports(Preorder(d), flag) == DeclReports(d, flag)
  {
    WalkConcat([d.kind], PreorderAll(d.children), flag);
    assert [d.kind][..0] == [];
    WalkInside(PreorderAll(d.children), FlagAfter([d.kind], flag));
  }

  lemma {:induction false} FlagAfterDecls(decls: seq<Node>)
    requires forall i :: 0 <= i < |decls| ==> IsDecl(decls[i])
    ensures FlagAfter(PreorderAll(decls), false) == AfterMain(decls)
  {
    if decls != [] {
      var front, last := decls[..|decls| - 1], decls[|decls| - 1];
      FlagAfterDecls(front);
      assert decls == front + [last];
      PreorderSnoc(front, last);
      WalkConcat(PreorderAll(front), Preorder(last), false);
      WalkDecl(last, AfterMain(front));
    }
  }

  lemma ReportsSnoc(front: seq<Node>, last: Node)
    requires IsDecl(last) && forall i :: 0 <= i < |front| ==> IsDecl(front[i])
    ensures Reports(PreorderAll(front + [last]), false) ==
      Reports(PreorderAll(front), false) + DeclReports(last, AfterMain(front))
  {
    FlagAfterDecls(front);
    PreorderSnoc(front, last);
    WalkConcat(PreorderAll(front), Preorder(last), false);
    WalkDecl(last, AfterMain(front));
  }

  lemma StraySnoc(front: seq<Node>, last: Node)
    ensures (forall i: nat :: !Stray(front + [last], i)) <==>
      (forall i: nat :: !Stray(front, i)) && !Stray(front + [last], |front|)
  {
    var decls := front + [last];
    forall i: nat | i < |front| ensures Stray(decls, i) <==> Stray(front, i) {
      assert decls[..i] == front[..i];
    }
  }

  lemma {:induction false} WalkDecls(decls: seq<Node>)
    requires forall i :: 0 <= i < |decls| ==> IsDecl(decls[i])
    ensures |Reports(PreorderAll(decls), false)| >= |Nested(decls)|
    ensures if forall i: nat :: !Stray(decls, i)
            then Reports(PreorderAll(decls), false) == Nested(decls)
            else |Reports(PreorderAll(decls), false)| > |Nested(decls)|
  {
    if decls != [] {
      var front, last := decls[..|decls| - 1], decls[|decls| - 1];
      WalkDecls(front);
      assert decls == front + [last];
      ReportsSnoc(front, last);
      StraySnoc(front, last);
      assert decls[..|front|] == front;
    }
  }

  /** For every well-formed file: what is reported is what is nested in the function main
      exactly when no method main holds an os.Exit statement, and no variable or other
      declaration between one named main and the next function or method does. */
  lemma NestedExactly(file: Node)
    requires WellFormed(file)
    ensures Reports(Preorder(file), false) == Nested(file.children) <==> forall i: nat :: !Stray(file.children, i)
  {
    WalkConcat([file.kind], PreorderAll(file.children), false);
    assert [file.kind][..0] == [];
    WalkDecls(file.children);
  }
}
