/**
 * common/facade/extra.go: extraction of the variables a SQL template
 * references, dialect resolution for a builder request, and the aliases of
 * SELECT and ORDER BY entries.
 *
 * The variable walker reproduces the code as written: an if, range or with
 * node contributes the identifiers of its guard pipeline only, because the
 * case that walks a body and an else-list matches only a bare branch node,
 * which the template parser never builds. `IfBodyIsNotCollected` pins that
 * behaviour; it looks unintended, but it is what callers observe.
 */
module Facade {
  import opened Wrappers
  import opened TemplateParse
  import opened Strings
  import Proto
  import Xorm

  // ------------------------------------------------------------------
  // findVariablesFromPipe (extra.go:95-108)
  // ------------------------------------------------------------------

  /** The first identifier of every field argument of `p`, command by
      command and argument by argument, descending into nested pipelines. */
  function FindVariablesFromPipe(p: Pipe): seq<string>
    decreases p
  {
    CmdsVariables(p.cmds)
  }

  function CmdsVariables(cmds: seq<Cmd>): seq<string>
    decreases cmds
  {
    if cmds == [] then [] else ArgsVariables(cmds[0].args) + CmdsVariables(cmds[1..])
  }

  function ArgsVariables(args: seq<Arg>): seq<string>
    decreases args
  {
    if args == [] then [] else ArgVariables(args[0]) + ArgsVariables(args[1..])
  }

  /** The type switch on one argument: a field gives `Ident[0]`, a nested
      pipeline is walked, every other kind gives nothing. */
  function ArgVariables(a: Arg): seq<string>
    decreases a
  {
    match a
    case Field(ident) => [ident[0]]
    case Nested(q) => FindVariablesFromPipe(q)
    case OtherArg => []
  }

  /** A pipeline of one command gives that command's arguments' identifiers. */
  lemma SingleCommand(args: seq<Arg>)
    ensures FindVariablesFromPipe(Pipe([Cmd(args)])) == ArgsVariables(args)
  {
    assert [Cmd(args)][1..] == [];
    assert FindVariablesFromPipe(Pipe([Cmd(args)])) == CmdsVariables([Cmd(args)]);
    assert CmdsVariables([Cmd(args)]) == ArgsVariables(args) + CmdsVariables([]);
  }

  /** What one argument on its own contributes. */
  lemma FindVariablesFromPipeArg(a: Arg)
    ensures a.Field? ==> FindVariablesFromPipe(Pipe([Cmd([a])])) == [a.ident[0]]
    ensures a.Nested? ==> FindVariablesFromPipe(Pipe([Cmd([a])])) == FindVariablesFromPipe(a.pipe)
    ensures a.OtherArg? ==> FindVariablesFromPipe(Pipe([Cmd([a])])) == []
  {
    SingleCommand([a]);
    assert [a][1..] == [];
  }

  lemma {:induction false} CmdsVariablesConcat(c1: seq<Cmd>, c2: seq<Cmd>)
    ensures CmdsVariables(c1 + c2) == CmdsVariables(c1) + CmdsVariables(c2)
    decreases |c1|
  {
    if c1 != [] {
      assert (c1 + c2)[1..] == c1[1..] + c2;
      CmdsVariablesConcat(c1[1..], c2);
    } else {
      assert c1 + c2 == c2;
    }
  }

  lemma {:induction false} ArgsVariablesConcat(a1: seq<Arg>, a2: seq<Arg>)
    ensures ArgsVariables(a1 + a2) == ArgsVariables(a1) + ArgsVariables(a2)
    decreases |a1|
  {
    if a1 != [] {
      assert (a1 + a2)[1..] == a1[1..] + a2;
      ArgsVariablesConcat(a1[1..], a2);
    } else {
      assert a1 + a2 == a2;
    }
  }

  /** Commands contribute in order: the identifiers of `c1` come before those of `c2`. */
  lemma FindVariablesFromPipeCommandOrder(c1: seq<Cmd>, c2: seq<Cmd>)
    ensures FindVariablesFromPipe(Pipe(c1 + c2)) == FindVariablesFromPipe(Pipe(c1)) + FindVariablesFromPipe(Pipe(c2))
  {
    CmdsVariablesConcat(c1, c2);
  }

  /** Arguments of a command contribute in order. */
  lemma FindVariablesFromPipeArgumentOrder(a1: seq<Arg>, a2: seq<Arg>)
    ensures FindVariablesFromPipe(Pipe([Cmd(a1 + a2)])) ==
            FindVariablesFromPipe(Pipe([Cmd(a1)])) + FindVariablesFromPipe(Pipe([Cmd(a2)]))
  {
    ArgsVariablesConcat(a1, a2);
    SingleCommand(a1 + a2);
    SingleCommand(a1);
    SingleCommand(a2);
  }

  /** An identifier is collected from `p` exactly when it is the first
      identifier of some field reference in `p`, at any nesting depth. */
  lemma {:induction false} FindVariablesFromPipeRoots(p: Pipe, x: string)
    ensures x in FindVariablesFromPipe(p) <==> RootInPipe(x, p)
    decreases p
  {
    CmdsVariablesRoots(p.cmds, x);
    assert FindVariablesFromPipe(p) == CmdsVariables(p.cmds);
  }

  lemma {:induction false} CmdsVariablesRoots(cmds: seq<Cmd>, x: string)
    ensures x in CmdsVariables(cmds) ==> exists c, a :: c in cmds && a in c.args && ArgRoot(x, a)
    ensures forall c, a :: c in cmds && a in c.args && ArgRoot(x, a) ==> x in CmdsVariables(cmds)
    decreases cmds
  {
    if cmds != [] {
      ArgsVariablesRoots(cmds[0].args, x);
      CmdsVariablesRoots(cmds[1..], x);
      if x in CmdsVariables(cmds) {
        if x in ArgsVariables(cmds[0].args) {
          var a :| a in cmds[0].args && ArgRoot(x, a);
          assert cmds[0] in cmds;
        } else {
          var c, a :| c in cmds[1..] && a in c.args && ArgRoot(x, a);
          assert c in cmds;
        }
      }
      if exists c, a :: c in cmds && a in c.args && ArgRoot(x, a) {
        var c, a :| c in cmds && a in c.args && ArgRoot(x, a);
        if c != cmds[0] {
          assert c in cmds[1..];
        }
      }
    }
  }

  lemma {:induction false} ArgsVariablesRoots(args: seq<Arg>, x: string)
    ensures x in ArgsVariables(args) ==> exists a :: a in args && ArgRoot(x, a)
    ensures forall a :: a in args && ArgRoot(x, a) ==> x in ArgsVariables(args)
    decreases args
  {
    if args != [] {
      ArgVariablesRoots(args[0], x);
      ArgsVariablesRoots(args[1..], x);
      if exists a :: a in args && ArgRoot(x, a) {
        var a :| a in args && ArgRoot(x, a);
        if a != args[0] {
          assert a in args[1..];
        }
      }
    }
  }

  lemma {:induction false} ArgVariablesRoots(a: Arg, x: string)
    ensures x in ArgVariables(a) <==> ArgRoot(x, a)
    decreases a
  {
    if a.Nested? {
      FindVariablesFromPipeRoots(a.pipe, x);
    }
  }

  // ------------------------------------------------------------------
  // findVariables (extra.go:65-93)
  // ------------------------------------------------------------------

  /** The type switch on a node. A bare branch node has its guard, body and
      else-list walked; if, range and with nodes, which Go's type switch does
      not match as branch nodes, give their guard pipeline only. A template
      inclusion gives its name; its argument pipeline is not read. */
  function FindVariables(n: Node): seq<string>
    decreases n
  {
    match n
    case Action(p) => FindVariablesFromPipe(p)
    case Branch(p, list, elseList) =>
      FindVariablesFromPipe(p) + ListVariables(list) + ListVariables(elseList)
    case Range(p, _, _) => FindVariablesFromPipe(p)
    case With(p, _, _) => FindVariablesFromPipe(p)
    case If(p, _, _) => FindVariablesFromPipe(p)
    case TemplateInc(name, _) => [name]
    case PipeNode(p) => FindVariablesFromPipe(p)
    case Other => []
  }

  /** `findVariables` applied to each node of a list, results concatenated. */
  function ListVariables(nodes: seq<Node>): seq<string>
    decreases nodes
  {
    if nodes == [] then [] else FindVariables(nodes[0]) + ListVariables(nodes[1..])
  }

  lemma {:induction false} ListVariablesConcat(l1: seq<Node>, l2: seq<Node>)
    ensures ListVariables(l1 + l2) == ListVariables(l1) + ListVariables(l2)
    decreases |l1|
  {
    if l1 != [] {
      assert (l1 + l2)[1..] == l1[1..] + l2;
      ListVariablesConcat(l1[1..], l2);
    } else {
      assert l1 + l2 == l2;
    }
  }

  /** The dispatch, stated by what each kind of node gives. The bodies and
      else-lists of if, range and with nodes never matter; neither does the
      argument of a template inclusion. */
  lemma FindVariablesDispatch(n: Node, list': seq<Node>, elseList': seq<Node>, arg': Option<Pipe>)
    ensures n.Action? || n.PipeNode? ==> FindVariables(n) == FindVariablesFromPipe(n.pipe)
    ensures n.If? ==> FindVariables(n) == FindVariablesFromPipe(n.pipe) == FindVariables(If(n.pipe, list', elseList'))
    ensures n.Range? ==> FindVariables(n) == FindVariablesFromPipe(n.pipe) == FindVariables(Range(n.pipe, list', elseList'))
    ensures n.With? ==> FindVariables(n) == FindVariablesFromPipe(n.pipe) == FindVariables(With(n.pipe, list', elseList'))
    ensures n.Branch? ==> FindVariables(n) == FindVariablesFromPipe(n.pipe) + ListVariables(n.list) + ListVariables(n.elseList)
    ensures n.TemplateInc? ==> FindVariables(n) == [n.name] == FindVariables(TemplateInc(n.name, arg'))
    ensures n.Other? ==> FindVariables(n) == []
  {
  }

  /** Every collected identifier is referenced somewhere in the node:
      the walker never invents a name. */
  lemma {:induction false} FindVariablesSound(n: Node, x: string)
    requires x in FindVariables(n)
    ensures MentionedIn(x, n)
    decreases n
  {
    match n
    case Action(p) => FindVariablesFromPipeRoots(p, x);
    case Branch(p, list, elseList) =>
      if x in FindVariablesFromPipe(p) {
        FindVariablesFromPipeRoots(p, x);
      } else if x in ListVariables(list) {
        ListVariablesSound(list, x);
      } else {
        ListVariablesSound(elseList, x);
      }
    case Range(p, _, _) => FindVariablesFromPipeRoots(p, x);
    case With(p, _, _) => FindVariablesFromPipeRoots(p, x);
    case If(p, _, _) => FindVariablesFromPipeRoots(p, x);
    case TemplateInc(_, _) =>
    case PipeNode(p) => FindVariablesFromPipeRoots(p, x);
  }

  lemma {:induction false} ListVariablesSound(nodes: seq<Node>, x: string)
    requires x in ListVariables(nodes)
    ensures MentionedInList(x, nodes)
    decreases nodes
  {
    if x in FindVariables(nodes[0]) {
      FindVariablesSound(nodes[0], x);
      assert nodes[0] in nodes;
    } else {
      ListVariablesSound(nodes[1..], x);
      var m :| m in nodes[1..] && MentionedIn(x, m);
      assert m in nodes;
    }
  }

  /** `{{if .Cond}}{{.Y}}{{end}}`: `Y` is referenced but only `Cond` is collected. */
  lemma IfBodyIsNotCollected()
    ensures var body := Action(Pipe([Cmd([Field(["Y"])])]));
            var n := If(Pipe([Cmd([Field(["Cond"])])]), [body], []);
            FindVariables(n) == ["Cond"] && MentionedIn("Y", n) && "Y" !in FindVariables(n)
  {
    var y := Pipe([Cmd([Field(["Y"])])]);
    var body := Action(y);
    var c := Cmd([Field(["Y"])]);
    assert c in y.cmds && Field(["Y"]) in c.args && ArgRoot("Y", Field(["Y"]));
    assert RootInPipe("Y", y);
    assert MentionedIn("Y", body);
    assert body in [body];
  }

  // ------------------------------------------------------------------
  // unique (extra.go:110-120)
  // ------------------------------------------------------------------

  /** The elements of `s`, each once, in the order of their first occurrence. */
  function FirstOccurrences(s: seq<string>): seq<string>
    decreases |s|
  {
    if s == [] then []
    else
      var r := FirstOccurrences(s[..|s| - 1]);
      if s[|s| - 1] in r then r else r + [s[|s| - 1]]
  }

  /** The position of the first occurrence of `x` in `s`. */
  function FirstIndex(s: seq<string>, x: string): (k: nat)
    requires x in s
    ensures k < |s| && s[k] == x
    ensures forall j :: 0 <= j < k ==> s[j] != x
  {
    if s[0] == x then 0 else 1 + FirstIndex(s[1..], x)
  }

  /** `unique`: drops every repetition of a string already kept. */
  method Unique(vars: seq<string>) returns (result: seq<string>)
    ensures result == FirstOccurrences(vars)
  {
    var seen: set<string> := {};
    result := [];
    for i := 0 to |vars|
      invariant result == FirstOccurrences(vars[..i])
      invariant forall x :: x in seen <==> x in result
    {
      var v := vars[i];
      assert vars[..i + 1][..i] == vars[..i];
      if v !in seen {
        seen := seen + {v};
        result := result + [v];
      }
    }
    assert vars[..|vars|] == vars;
  }

  /** Deduplication keeps exactly the strings of its input. */
  lemma {:induction false} FirstOccurrencesElements(s: seq<string>)
    ensures forall x :: x in FirstOccurrences(s) <==> x in s
    decreases |s|
  {
    if s != [] {
      var s' := s[..|s| - 1];
      FirstOccurrencesElements(s');
      assert s == s' + [s[|s| - 1]];
    }
  }

  lemma {:induction false} FirstOccurrencesNoDuplicates(s: seq<string>)
    ensures NoDuplicates(FirstOccurrences(s))
    decreases |s|
  {
    if s != [] {
      FirstOccurrencesNoDuplicates(s[..|s| - 1]);
    }
  }

  lemma {:induction false} FirstOccurrencesShorter(s: seq<string>)
    ensures |FirstOccurrences(s)| <= |s|
    decreases |s|
  {
    if s != [] {
      FirstOccurrencesShorter(s[..|s| - 1]);
    }
  }

  /** The kept strings appear in the order in which each first occurs in the input. */
  lemma {:induction false} FirstOccurrencesOrder(s: seq<string>)
    ensures forall i, j :: 0 <= i < j < |FirstOccurrences(s)| ==>
      FirstOccurrences(s)[i] in s && FirstOccurrences(s)[j] in s &&
      FirstIndex(s, FirstOccurrences(s)[i]) < FirstIndex(s, FirstOccurrences(s)[j])
    decreases |s|
  {
    if s != [] {
      var s', z := s[..|s| - 1], s[|s| - 1];
      assert s == s' + [z];
      var r' := FirstOccurrences(s');
      FirstOccurrencesOrder(s');
      FirstOccurrencesElements(s');
      var r := FirstOccurrences(s);
      assert r == if z in r' then r' else r' + [z];
      forall i, j | 0 <= i < j < |FirstOccurrences(s)|
        ensures FirstOccurrences(s)[i] in s && FirstOccurrences(s)[j] in s &&
          FirstIndex(s, FirstOccurrences(s)[i]) < FirstIndex(s, FirstOccurrences(s)[j])
      {
        assert r[i] == r'[i] && r[i] in s';
        FirstIndexPrefix(s', [z], r[i]);
        if j < |r'| {
          assert r[j] == r'[j];
          FirstIndexPrefix(s', [z], r[j]);
          assert FirstIndex(s', r'[i]) < FirstIndex(s', r'[j]);
        } else {
          assert r[j] == z && z !in s';
          assert FirstIndex(s, z) == |s'|;
          assert FirstIndex(s', r[i]) < |s'|;
        }
        assert FirstIndex(s, FirstOccurrences(s)[i]) < FirstIndex(s, FirstOccurrences(s)[j]);
      }
    } else {
      assert FirstOccurrences(s) == [];
    }
  }

  lemma FirstIndexPrefix(s: seq<string>, t: seq<string>, x: string)
    requires x in s
    ensures x in s + t && FirstIndex(s + t, x) == FirstIndex(s, x)
  {
    var k := FirstIndex(s, x);
    assert (s + t)[k] == x;
  }

  /** A sequence without repetitions is its own deduplication. */
  lemma {:induction false} FirstOccurrencesOfDistinct(s: seq<string>)
    requires NoDuplicates(s)
    ensures FirstOccurrences(s) == s
    decreases |s|
  {
    if s != [] {
      var s' := s[..|s| - 1];
      FirstOccurrencesOfDistinct(s');
      FirstOccurrencesElements(s');
      assert s == s' + [s[|s| - 1]];
    }
  }

  /** Deduplicating twice is deduplicating once. */
  lemma FirstOccurrencesIdempotent(s: seq<string>)
    ensures FirstOccurrences(FirstOccurrences(s)) == FirstOccurrences(s)
  {
    FirstOccurrencesNoDuplicates(s);
    FirstOccurrencesOfDistinct(FirstOccurrences(s));
  }

  /** Inserting strings that already occurred earlier changes nothing. */
  lemma {:induction false} FirstOccurrencesAbsorbs(xs: seq<string>, ys: seq<string>, zs: seq<string>)
    requires forall y :: y in ys ==> y in xs
    ensures FirstOccurrences(xs + ys + zs) == FirstOccurrences(xs + zs)
    decreases |zs|
  {
    if zs == [] {
      assert xs + ys + zs == xs + ys && xs + zs == xs;
      AbsorbsTail(xs, ys);
    } else {
      var zs', z := zs[..|zs| - 1], zs[|zs| - 1];
      FirstOccurrencesAbsorbs(xs, ys, zs');
      assert (xs + ys + zs)[..|xs + ys + zs| - 1] == xs + ys + zs';
      assert (xs + zs)[..|xs + zs| - 1] == xs + zs';
    }
  }

  lemma {:induction false} AbsorbsTail(xs: seq<string>, ys: seq<string>)
    requires forall y :: y in ys ==> y in xs
    ensures FirstOccurrences(xs + ys) == FirstOccurrences(xs)
    decreases |ys|
  {
    if ys == [] {
      assert xs + ys == xs;
    } else {
      var ys' := ys[..|ys| - 1];
      AbsorbsTail(xs, ys');
      assert (xs + ys)[..|xs + ys| - 1] == xs + ys';
      FirstOccurrencesElements(xs);
      assert ys[|ys| - 1] in ys;
    }
  }

  // ------------------------------------------------------------------
  // ExtractVariables (extra.go:47-63)
  // ------------------------------------------------------------------

  /** The identifiers of a tree's root list; a nil tree gives none. */
  function TreeVariables(tree: Option<Tree>): seq<string>
  {
    if tree.Some? then ListVariables(tree.value.root) else []
  }

  /** The identifiers of every enumerated template, in enumeration order. */
  function TemplatesVariables(ts: seq<Associated>): seq<string>
    decreases |ts|
  {
    if ts == [] then [] else TreeVariables(ts[0].tree) + TemplatesVariables(ts[1..])
  }

  /** What `ExtractVariables` returns: nothing for a template without a tree,
      otherwise the deduplicated identifiers of the root and then of each
      enumerated template. */
  function ExtractedVariables(t: Template): seq<string>
  {
    if t.tree.None? then [] else FirstOccurrences(TreeVariables(t.tree) + TemplatesVariables(t.templates))
  }

  lemma {:induction false} TemplatesVariablesConcat(t1: seq<Associated>, t2: seq<Associated>)
    ensures TemplatesVariables(t1 + t2) == TemplatesVariables(t1) + TemplatesVariables(t2)
    decreases |t1|
  {
    if t1 != [] {
      assert (t1 + t2)[1..] == t1[1..] + t2;
      TemplatesVariablesConcat(t1[1..], t2);
    } else {
      assert t1 + t2 == t2;
    }
  }

  /** `ExtractVariables`: walks the root list, then the list of every
      enumerated template that has a tree, and deduplicates. */
  method ExtractVariables(t: Template) returns (vars: seq<string>)
    ensures vars == ExtractedVariables(t)
  {
    if t.tree.None? {
      return [];
    }
    var raw := AppendListVariables([], t.tree.value.root);
    for j := 0 to |t.templates|
      invariant raw == TreeVariables(t.tree) + TemplatesVariables(t.templates[..j])
    {
      ghost var before := raw;
      raw := AppendTemplateVariables(raw, t.templates[j]);
      TemplatesSnoc(t.templates, j);
      AppendRegrouped(before, raw, TreeVariables(t.tree), TemplatesVariables(t.templates[..j]),
                      TreeVariables(t.templates[j].tree));
    }
    assert t.templates[..|t.templates|] == t.templates;
    vars := Unique(raw);
    ExtractedFromRaw(t, raw);
  }

  /** `ExtractedFromRaw`, `AppendRegrouped` and `Regroup` restate
      regroupings over plain sequences, so that the proofs using them do not
      unfold the walker's definitions. */
  lemma ExtractedFromRaw(t: Template, raw: seq<string>)
    requires t.tree.Some? && raw == TreeVariables(t.tree) + TemplatesVariables(t.templates)
    ensures ExtractedVariables(t) == FirstOccurrences(raw)
  {
  }

  /** One step of the `for _, tmpl := range t.Templates()` loop: a template
      without a tree adds nothing, otherwise its root list is walked. */
  method AppendTemplateVariables(vars: seq<string>, tmpl: Associated) returns (vars': seq<string>)
    ensures vars' == vars + TreeVariables(tmpl.tree)
  {
    vars' := vars;
    if tmpl.tree.Some? {
      vars' := AppendListVariables(vars, tmpl.tree.value.root);
    }
  }

  /** Regrouping of one loop step, over plain sequences. */
  lemma AppendRegrouped(before: seq<string>, after: seq<string>, a: seq<string>, b: seq<string>, c: seq<string>)
    requires before == a + b && after == before + c
    ensures after == a + (b + c)
  {
  }

  /** One `for _, node := range list.Nodes` loop: appends what `findVariables`
      gives for each node. */
  method AppendListVariables(vars: seq<string>, nodes: seq<Node>) returns (vars': seq<string>)
    ensures vars' == vars + ListVariables(nodes)
  {
    vars' := vars;
    for k := 0 to |nodes|
      invariant vars' == vars + ListVariables(nodes[..k])
    {
      ListSnoc(nodes, k);
      vars' := vars' + FindVariables(nodes[k]);
    }
    assert nodes[..|nodes|] == nodes;
  }

  lemma ListSnoc(nodes: seq<Node>, k: nat)
    requires k < |nodes|
    ensures ListVariables(nodes[..k + 1]) == ListVariables(nodes[..k]) + FindVariables(nodes[k])
  {
    ListVariablesConcat(nodes[..k], [nodes[k]]);
    assert nodes[..k + 1] == nodes[..k] + [nodes[k]];
    assert [nodes[k]][1..] == [];
  }

  lemma TemplatesSnoc(ts: seq<Associated>, j: nat)
    requires j < |ts|
    ensures TemplatesVariables(ts[..j + 1]) == TemplatesVariables(ts[..j]) + TreeVariables(ts[j].tree)
  {
    TemplatesVariablesConcat(ts[..j], [ts[j]]);
    assert ts[..j + 1] == ts[..j] + [ts[j]];
    OneTemplate(ts[j]);
  }

  /** The extracted names are distinct and are exactly the identifiers the
      walker finds in the root and the enumerated templates. */
  lemma ExtractedVariablesElements(t: Template)
    ensures NoDuplicates(ExtractedVariables(t))
    ensures forall x :: x in ExtractedVariables(t) <==>
      t.tree.Some? && (x in TreeVariables(t.tree) || x in TemplatesVariables(t.templates))
  {
    if t.tree.Some? {
      FirstOccurrencesNoDuplicates(TreeVariables(t.tree) + TemplatesVariables(t.templates));
      FirstOccurrencesElements(TreeVariables(t.tree) + TemplatesVariables(t.templates));
    }
  }

  /** Enumerated templates that contribute only names already found earlier
      (in the primary tree or in the templates enumerated before them) do
      not change the result. */
  lemma {:induction false} RedundantTemplatesIgnored(tree: Option<Tree>, p: seq<Associated>, q: seq<Associated>, r: seq<Associated>)
    requires forall y :: y in TemplatesVariables(q) ==> y in TreeVariables(tree) + TemplatesVariables(p)
    ensures ExtractedVariables(Template(tree, p + q + r)) == ExtractedVariables(Template(tree, p + r))
  {
    if tree.Some? {
      ThreeTemplateLists(p, q, r);
      AbsorbsRegrouped(TreeVariables(tree), TemplatesVariables(p + q + r), TemplatesVariables(p + r),
                       TemplatesVariables(p), TemplatesVariables(q), TemplatesVariables(r));
    }
  }

  /** `FirstOccurrencesAbsorbs` with the pieces named apart from the trees they
      come from, which keeps the walker's definitions out of the proof. */
  lemma AbsorbsRegrouped(root: seq<string>, a: seq<string>, b: seq<string>, vp: seq<string>, vq: seq<string>, vr: seq<string>)
    requires a == vp + vq + vr && b == vp + vr
    requires forall y :: y in vq ==> y in root + vp
    ensures FirstOccurrences(root + a) == FirstOccurrences(root + b)
  {
    FirstOccurrencesAbsorbs(root + vp, vq, vr);
    Regroup(root, a, b, vp, vq, vr);
  }

  /** The regrouping `AbsorbsRegrouped` needs, over plain sequences. */
  lemma Regroup(root: seq<string>, a: seq<string>, b: seq<string>, vp: seq<string>, vq: seq<string>, vr: seq<string>)
    requires a == vp + vq + vr && b == vp + vr
    ensures root + a == root + vp + vq + vr
    ensures root + b == root + vp + vr
  {
  }

  lemma ThreeTemplateLists(p: seq<Associated>, q: seq<Associated>, r: seq<Associated>)
    ensures TemplatesVariables(p + q + r) == TemplatesVariables(p) + TemplatesVariables(q) + TemplatesVariables(r)
    ensures TemplatesVariables(p + r) == TemplatesVariables(p) + TemplatesVariables(r)
  {
    TemplatesVariablesConcat(p + q, r);
    TemplatesVariablesConcat(p, q);
    TemplatesVariablesConcat(p, r);
  }

  lemma OneTemplate(a: Associated)
    ensures TemplatesVariables([a]) == TreeVariables(a.tree)
  {
    assert [a][1..] == [];
  }

  /** Enumerating a template a second time does not change the result. */
  lemma RepeatedTemplateIgnored(tree: Option<Tree>, p: seq<Associated>, a: Associated, q: seq<Associated>, r: seq<Associated>)
    ensures ExtractedVariables(Template(tree, p + [a] + q + [a] + r)) ==
            ExtractedVariables(Template(tree, p + [a] + q + r))
  {
    OneTemplate(a);
    TemplatesVariablesConcat(p + [a], q);
    TemplatesVariablesConcat(p, [a]);
    RedundantTemplatesIgnored(tree, p + [a] + q, [a], r);
  }

  /** Whether the enumeration also lists the primary template itself does not
      change the result. */
  lemma RootEnumeratedIgnored(tree: Tree, name: string, p: seq<Associated>, q: seq<Associated>)
    ensures ExtractedVariables(Template(Some(tree), p + [Associated(name, Some(tree))] + q)) ==
            ExtractedVariables(Template(Some(tree), p + q))
  {
    OneTemplate(Associated(name, Some(tree)));
    RedundantTemplatesIgnored(Some(tree), p, [Associated(name, Some(tree))], q);
  }

  /** An enumerated template without a tree is skipped. */
  lemma TreelessTemplateSkipped(tree: Option<Tree>, p: seq<Associated>, name: string, q: seq<Associated>)
    ensures ExtractedVariables(Template(tree, p + [Associated(name, None)] + q)) ==
            ExtractedVariables(Template(tree, p + q))
  {
    OneTemplate(Associated(name, None));
    RedundantTemplatesIgnored(tree, p, [Associated(name, None)], q);
  }

  /** A name is collected from the enumerated templates exactly when one of
      them has it in its tree. */
  lemma {:induction false} TemplatesVariablesMembers(ts: seq<Associated>, x: string)
    ensures x in TemplatesVariables(ts) ==> exists a :: a in ts && x in TreeVariables(a.tree)
    ensures forall a :: a in ts && x in TreeVariables(a.tree) ==> x in TemplatesVariables(ts)
    decreases |ts|
  {
    if ts != [] {
      TemplatesVariablesMembers(ts[1..], x);
      assert ts[0] in ts;
      forall a | a in ts && x in TreeVariables(a.tree)
        ensures x in TemplatesVariables(ts)
      {
        if a != ts[0] {
          assert a in ts[1..];
        }
      }
      if x in TemplatesVariables(ts) && x !in TreeVariables(ts[0].tree) {
        var a :| a in ts[1..] && x in TreeVariables(a.tree);
        assert a in ts;
      }
    }
  }

  /** `t.Templates()` lists a map, in no fixed order: any reordering of the
      enumerated templates extracts the same set of names. */
  lemma EnumerationOrderIrrelevant(tree: Option<Tree>, ts: seq<Associated>, us: seq<Associated>)
    requires multiset(ts) == multiset(us)
    ensures forall x :: x in ExtractedVariables(Template(tree, ts)) <==> x in ExtractedVariables(Template(tree, us))
  {
    ExtractedVariablesElements(Template(tree, ts));
    ExtractedVariablesElements(Template(tree, us));
    forall x | x in TemplatesVariables(ts)
      ensures x in TemplatesVariables(us)
    {
      TemplatesVariablesMembers(ts, x);
      TemplatesVariablesMembers(us, x);
      var a :| a in ts && x in TreeVariables(a.tree);
      assert a in multiset(us);
    }
    forall x | x in TemplatesVariables(us)
      ensures x in TemplatesVariables(ts)
    {
      TemplatesVariablesMembers(ts, x);
      TemplatesVariablesMembers(us, x);
      var a :| a in us && x in TreeVariables(a.tree);
      assert a in multiset(ts);
    }
  }

  // ------------------------------------------------------------------
  // ExtraValFromTemplate (extra.go:25-45)
  // ------------------------------------------------------------------

  /** `util.RemoveElements`: the strings of `s` that are not in `names`, in order. */
  function RemoveElements(s: seq<string>, names: seq<string>): (r: seq<string>)
    ensures |r| <= |s|
    ensures forall x :: x in r <==> x in s && x !in names
    ensures NoDuplicates(s) ==> NoDuplicates(r)
    decreases |s|
  {
    if s == [] then []
    else if s[0] in names then RemoveElements(s[1..], names)
    else [s[0]] + RemoveElements(s[1..], names)
  }

  lemma {:induction false} DistinctCount(s: seq<string>, x: string)
    requires NoDuplicates(s)
    ensures multiset(s)[x] <= 1
    decreases |s|
  {
    if s != [] {
      DistinctCount(s[1..], x);
      assert s == [s[0]] + s[1..];
      if x == s[0] {
        assert x !in s[1..];
      }
    }
  }

  /** A permutation of a sequence without repetitions has none either. */
  lemma PermutationKeepsDistinct(s: seq<string>, t: seq<string>)
    requires NoDuplicates(s) && multiset(s) == multiset(t)
    ensures NoDuplicates(t)
  {
    forall i, j | 0 <= i < j < |t| ensures t[i] != t[j] {
      if t[i] == t[j] {
        assert t == t[..i] + [t[i]] + t[i + 1..j] + [t[j]] + t[j + 1..];
        assert multiset(t)[t[i]] >= 2;
        DistinctCount(s, t[i]);
      }
    }
  }

  /**
   * `ExtraValFromTemplate` given the outcome of parsing the text and the
   * sub-template name analysis (both outside this model): a parse or an
   * analysis error is returned as it is; otherwise the extracted names,
   * without the sub-template names, sorted ascending.
   */
  method ExtraValFromTemplate(parsed: Result<Template>, analyze: Template -> Result<seq<string>>)
    returns (r: Result<seq<string>>)
    ensures parsed.Err? ==> r == Err(parsed.error)
    ensures parsed.Ok? && analyze(parsed.value).Err? ==> r == Err(analyze(parsed.value).error)
    ensures parsed.Ok? && analyze(parsed.value).Ok? ==>
      var names := analyze(parsed.value).value;
      && r.Ok?
      && Sorted(r.value)
      && NoDuplicates(r.value)
      && (forall x :: x in r.value <==> x in ExtractedVariables(parsed.value) && x !in names)
      && multiset(r.value) == multiset(RemoveElements(ExtractedVariables(parsed.value), names))
  {
    if parsed.Err? {
      return Err(parsed.error);
    }
    var tmpl := parsed.value;
    var tmplNames := analyze(tmpl);
    if tmplNames.Err? {
      return Err(tmplNames.error);
    }
    var vars := ExtractVariables(tmpl);
    var newVars := RemoveElements(vars, tmplNames.value);
    var a := new string[|newVars|](i requires 0 <= i < |newVars| => newVars[i]);
    assert a[..] == newVars;
    SortStrings(a);
    ExtractedVariablesElements(tmpl);
    PermutationKeepsDistinct(newVars, a[..]);
    assert forall x :: x in a[..] <==> x in multiset(a[..]);
    assert forall x :: x in newVars <==> x in multiset(newVars);
    r := Ok(a[..]);
  }

  /** The result of `ExtraValFromTemplate` is deterministic: any two
      successful results for the same tree, the same template names and the
      enumerated templates in any order are equal. */
  lemma ExtraValOrderIrrelevant(tree: Option<Tree>, ts: seq<Associated>, us: seq<Associated>,
                                names: seq<string>, r1: seq<string>, r2: seq<string>)
    requires multiset(ts) == multiset(us)
    requires Sorted(r1) && NoDuplicates(r1)
    requires forall x :: x in r1 <==> x in ExtractedVariables(Template(tree, ts)) && x !in names
    requires Sorted(r2) && NoDuplicates(r2)
    requires forall x :: x in r2 <==> x in ExtractedVariables(Template(tree, us)) && x !in names
    ensures r1 == r2
  {
    EnumerationOrderIrrelevant(tree, ts, us);
    SortedDistinctUnique(r1, r2);
  }

  /** `{{.A}}{{.B}}{{.A}}` parsed as template "temp", which the enumeration
      of associated templates lists as well: the extracted names are A then B. */
  lemma RepeatedFieldExtractedOnce()
    ensures var a := Action(Pipe([Cmd([Field(["A"])])]));
            var b := Action(Pipe([Cmd([Field(["B"])])]));
            var root := Tree([a, b, a]);
            ExtractedVariables(Template(Some(root), [Associated("temp", Some(root))])) == ["A", "B"]
  {
    var a := Action(Pipe([Cmd([Field(["A"])])]));
    var b := Action(Pipe([Cmd([Field(["B"])])]));
    FieldAction("A");
    FieldAction("B");
    assert ListVariables([a]) == ["A"] by {
      assert [a][1..] == [];
    }
    assert ListVariables([b, a]) == ["B", "A"] by {
      assert [b, a][1..] == [a];
    }
    assert ListVariables([a, b, a]) == ["A", "B", "A"] by {
      assert [a, b, a][1..] == [b, a];
    }
    FirstOccurrencesOfABA();
    var root := Tree([a, b, a]);
    assert TreeVariables(Some(root)) + TemplatesVariables([]) == ["A", "B", "A"];
    RootEnumeratedIgnored(root, "temp", [], []);
    assert [] + [Associated("temp", Some(root))] + [] == [Associated("temp", Some(root))];
  }

  lemma FieldAction(x: string)
    ensures FindVariables(Action(Pipe([Cmd([Field([x])])]))) == [x]
  {
    FindVariablesFromPipeArg(Field([x]));
  }

  lemma FirstOccurrencesOfABA()
    ensures FirstOccurrences(["A", "B", "A"]) == ["A", "B"]
  {
    assert ["A"][..0] == [];
    assert FirstOccurrences(["A"]) == ["A"];
    assert ["A", "B"][..1] == ["A"];
    assert FirstOccurrences(["A", "B"]) == ["A", "B"];
    assert ["A", "B", "A"][..2] == ["A", "B"];
  }

  /** `{{define "sub"}}{{.X}}{{end}}{{template "sub"}}` parsed as template "temp",
      with both "temp" and "sub" enumerated: "sub" is extracted as an inclusion
      and removed as a template name; X stays. */
  lemma DefinedTemplateNameRemoved()
    ensures var sub := Tree([Action(Pipe([Cmd([Field(["X"])])]))]);
            var root := Tree([TemplateInc("sub", None)]);
            var tmpl := Template(Some(root), [Associated("temp", Some(root)), Associated("sub", Some(sub))]);
            RemoveElements(ExtractedVariables(tmpl), ["temp", "sub"]) == ["X"]
  {
    var sub := Tree([Action(Pipe([Cmd([Field(["X"])])]))]);
    var root := Tree([TemplateInc("sub", None)]);
    RootEnumeratedIgnored(root, "temp", [], [Associated("sub", Some(sub))]);
    assert [] + [Associated("temp", Some(root))] + [Associated("sub", Some(sub))] ==
           [Associated("temp", Some(root)), Associated("sub", Some(sub))];
    assert [] + [Associated("sub", Some(sub))] == [Associated("sub", Some(sub))];
    SubTemplateExtracted();
    assert ["sub", "X"][1..] == ["X"];
    assert ["X"][1..] == [];
  }

  /** Without the primary template's own entry, the inclusion name comes
      first and the sub-template's field second. */
  lemma SubTemplateExtracted()
    ensures var sub := Tree([Action(Pipe([Cmd([Field(["X"])])]))]);
            var root := Tree([TemplateInc("sub", None)]);
            ExtractedVariables(Template(Some(root), [Associated("sub", Some(sub))])) == ["sub", "X"]
  {
    var sub := Tree([Action(Pipe([Cmd([Field(["X"])])]))]);
    var tmpl := Template(Some(Tree([TemplateInc("sub", None)])), [Associated("sub", Some(sub))]);
    assert TreeVariables(tmpl.tree) == ["sub"] by {
      assert [TemplateInc("sub", None)][1..] == [];
    }
    assert TemplatesVariables(tmpl.templates) == ["X"] by {
      OneTemplate(Associated("sub", Some(sub)));
      FindVariablesFromPipeArg(Field(["X"]));
      assert sub.root[1..] == [];
    }
    assert FirstOccurrences(["sub"]) == ["sub"] by {
      assert ["sub"][..0] == [];
    }
    assert ["sub", "X"][..1] == ["sub"];
  }

  // ------------------------------------------------------------------
  // Dialect (extra.go:154-164)
  // ------------------------------------------------------------------

  /** The drivers the builder supports; any other one makes `Dialect` panic. */
  predicate Adapted(d: Proto.Driver)
  {
    d.Doris? || d.Mysql? || d.Postgres?
  }

  function Dialect(req: Proto.BuilderRequest): (b: Xorm.Builder)
    requires Adapted(req.driver)
    ensures b.dialect == Xorm.MYSQL <==> req.driver.Doris? || req.driver.Mysql?
    ensures b.dialect == Xorm.POSTGRES <==> req.driver.Postgres?
  {
    match req.driver
    case Doris => Xorm.Dialect(Xorm.MYSQL)
    case Mysql => Xorm.Dialect(Xorm.MYSQL)
    case Postgres => Xorm.Dialect(Xorm.POSTGRES)
  }

  /** Doris is built exactly as MySQL. */
  lemma DorisBuildsAsMysql(doris: Proto.BuilderRequest, mysql: Proto.BuilderRequest)
    requires doris.driver.Doris? && mysql.driver.Mysql?
    ensures Dialect(doris) == Dialect(mysql)
  {
  }

  // ------------------------------------------------------------------
  // ExtractSelectAlias, ExtractOrderAlias (extra.go:169-203)
  // ------------------------------------------------------------------

  /** The alias of a projection entry, through the nil-safe protobuf getters:
      a nil entry, an unset oneof or a nil message gives "". */
  function MixAlias(f: Option<Proto.MixField>): string
  {
    if f.None? || f.value.mix.None? then ""
    else
      match f.value.mix.value
      case MixColumn(c) => if c.Some? then c.value.alias else ""
      case MixExpression(e) => if e.Some? then e.value.callAs else ""
      case MixCaseWhen(w) => if w.Some? then w.value.alias else ""
  }

  /** Which field of which variant an alias comes from. */
  lemma MixAliasByVariant(f: Proto.MixField)
    ensures f.mix.None? ==> MixAlias(Some(f)) == ""
    ensures forall c :: f.mix == Some(Proto.MixColumn(Some(c))) ==> MixAlias(Some(f)) == c.alias
    ensures forall e :: f.mix == Some(Proto.MixExpression(Some(e))) ==> MixAlias(Some(f)) == e.callAs
    ensures forall w :: f.mix == Some(Proto.MixCaseWhen(Some(w))) ==> MixAlias(Some(f)) == w.alias
    ensures (f.mix == Some(Proto.MixColumn(None)) || f.mix == Some(Proto.MixExpression(None)) ||
             f.mix == Some(Proto.MixCaseWhen(None))) ==> MixAlias(Some(f)) == ""
    ensures MixAlias(None) == ""
  {
  }

  /** `ExtractSelectAlias`: one alias per entry, position by position. */
  method ExtractSelectAlias(sel: seq<Option<Proto.MixField>>) returns (alias: seq<string>)
    ensures |alias| == |sel|
    ensures forall i :: 0 <= i < |sel| ==> alias[i] == MixAlias(sel[i])
  {
    alias := [];
    for i := 0 to |sel|
      invariant |alias| == i
      invariant forall k :: 0 <= k < i ==> alias[k] == MixAlias(sel[k])
    {
      var name := MixAlias(sel[i]);
      alias := alias + [name];
    }
  }

  /** `ExtractOrderAlias`: per entry, the dependent's alias, a space and the
      direction. The code reads `o.Order` directly, so a nil entry panics. */
  method ExtractOrderAlias(order: seq<Option<Proto.OrderBy>>) returns (alias: seq<string>)
    requires forall i :: 0 <= i < |order| ==> order[i].Some?
    ensures |alias| == |order|
    ensures forall i :: 0 <= i < |order| ==>
      alias[i] == MixAlias(order[i].value.dependent) + " " + order[i].value.order
  {
    alias := [];
    for i := 0 to |order|
      invariant |alias| == i
      invariant forall k :: 0 <= k < i ==>
        alias[k] == MixAlias(order[k].value.dependent) + " " + order[k].value.order
    {
      var o := order[i].value;
      var name := MixAlias(o.dependent);
      name := name + " " + o.order;
      alias := alias + [name];
    }
  }
}
