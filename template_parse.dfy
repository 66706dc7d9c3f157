/**
 * The part of Go's `text/template/parse` tree that the variable walker of
 * common/facade/extra.go inspects. The parser itself is not modelled: trees
 * are built by hand and given to the walker.
 */
module TemplateParse {
  import opened Wrappers

  /** The dotted identifiers of a field reference: `.User.Name` is ["User", "Name"].
      The parser never builds a field node without identifiers. */
  type FieldPath = s: seq<string> | |s| > 0 witness [""]

  /** An argument of a command (`parse.Node` inside `CommandNode.Args`). */
  datatype Arg =
    | Field(ident: FieldPath)       // *parse.FieldNode
    | Nested(pipe: Pipe)            // *parse.PipeNode, a parenthesised pipeline
    | OtherArg                      // identifiers, variables, chains, constants, nil, dot

  /** A command of a pipeline (`*parse.CommandNode`). */
  datatype Cmd = Cmd(args: seq<Arg>)

  /** A pipeline (`*parse.PipeNode`); its variable declarations are not read by the walker. */
  datatype Pipe = Pipe(cmds: seq<Cmd>)

  /** A node of a list. A missing else-list (Go's nil `ElseList`) is the empty sequence. */
  datatype Node =
    | Action(pipe: Pipe)                                          // {{pipeline}}
    | If(pipe: Pipe, list: seq<Node>, elseList: seq<Node>)        // {{if pipeline}} list {{else}} elseList {{end}}
    | Range(pipe: Pipe, list: seq<Node>, elseList: seq<Node>)     // {{range pipeline}} ...
    | With(pipe: Pipe, list: seq<Node>, elseList: seq<Node>)      // {{with pipeline}} ...
    | Branch(pipe: Pipe, list: seq<Node>, elseList: seq<Node>)    // a bare *parse.BranchNode
    | TemplateInc(name: string, arg: Option<Pipe>)                // {{template "name" pipeline}}
    | PipeNode(pipe: Pipe)                                        // a *parse.PipeNode used as a node
    | Other                                                       // text, comments, lists, break, continue, ...

  /** A parse tree (`*parse.Tree`): the nodes of its root list. */
  datatype Tree = Tree(root: seq<Node>)

  /** A template associated with a compiled template (an element of `Templates()`). */
  datatype Associated = Associated(name: string, tree: Option<Tree>)

  /** A compiled `*template.Template`: its own tree (nil when it has no definition)
      and the templates `Templates()` enumerates, in enumeration order. */
  datatype Template = Template(tree: Option<Tree>, templates: seq<Associated>)

  // Occurrence of names anywhere in a tree, independent of how the walker
  // of common/facade/extra.go visits it.

  /** `x` is the first identifier of a field argument `a`, or of one inside the nested pipeline `a`. */
  ghost predicate ArgRoot(x: string, a: Arg)
    decreases a
  {
    match a
    case Field(ident) => ident[0] == x
    case Nested(p) => RootInPipe(x, p)
    case OtherArg => false
  }

  /** `x` is the first identifier of some field reference in `p`, at any nesting depth. */
  ghost predicate RootInPipe(x: string, p: Pipe)
    decreases p
  {
    exists c, a :: c in p.cmds && a in c.args && ArgRoot(x, a)
  }

  /** `x` is referenced anywhere in `n`: as the root of a field in any pipeline,
      including the bodies and else-lists of control nodes and the argument
      of a template inclusion, or as the name of an included template. */
  ghost predicate MentionedIn(x: string, n: Node)
    decreases n
  {
    match n
    case Action(p) => RootInPipe(x, p)
    case If(p, list, elseList) => RootInPipe(x, p) || MentionedInList(x, list) || MentionedInList(x, elseList)
    case Range(p, list, elseList) => RootInPipe(x, p) || MentionedInList(x, list) || MentionedInList(x, elseList)
    case With(p, list, elseList) => RootInPipe(x, p) || MentionedInList(x, list) || MentionedInList(x, elseList)
    case Branch(p, list, elseList) => RootInPipe(x, p) || MentionedInList(x, list) || MentionedInList(x, elseList)
    case TemplateInc(name, arg) => x == name || (arg.Some? && RootInPipe(x, arg.value))
    case PipeNode(p) => RootInPipe(x, p)
    case Other => false
  }

  ghost predicate MentionedInList(x: string, nodes: seq<Node>)
    decreases nodes
  {
    exists n :: n in nodes && MentionedIn(x, n)
  }
}
