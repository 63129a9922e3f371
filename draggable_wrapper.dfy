/**
 * `DraggableWrapper`: wraps one element in a drag source and, when a handle
 * class name is given, attaches the drag listeners to the handle elements
 * in the element tree instead of to the wrapper.
 *
 * Element trees are values: an element's props are reduced to its class
 * name, whether the drag listeners are merged into them, and its children.
 * An element without children has an empty child list.
 */
module DraggableWrapper {
  import opened Wrappers

  datatype Node =
    | Text(text: string)
    | Element(className: string, listeners: bool, children: seq<Node>)

  /** What `React.Children.map` and the wrapper work with: one node, or an array of nodes. */
  datatype ReactNode = Single(node: Node) | List(nodes: seq<Node>)

  /** The drag source's `div`: whether the listeners are spread on it, and its content. */
  datatype Wrapper = Wrapper(listeners: bool, content: ReactNode)

  /** `DraggableWrapper`'s result: non-element children bare, elements inside a drag source. */
  datatype Rendered = Bare(child: Node) | InDragSource(wrapper: Wrapper)

  /** `s.includes(t)`. */
  predicate Contains(s: string, t: string)
  {
    exists i :: 0 <= i <= |s| - |t| && OccursAt(s, t, i)
  }

  predicate OccursAt(s: string, t: string, i: int)
  {
    0 <= i <= |s| - |t| && s[i..i + |t|] == t
  }

  /** An element whose (truthy) class name contains the handle class name. */
  predicate IsHandle(n: Node, handle: string)
  {
    n.Element? && n.className != "" && Contains(n.className, handle)
  }

  /** The rewrite of one child: a handle gets the listeners, other elements have their children rewritten. */
  function AttachToHandle(n: Node, handle: string): (r: Node)
    ensures r.Text? <==> n.Text?
    ensures n.Text? ==> r == n
    ensures n.Element? ==> r.className == n.className && |r.children| == |n.children|
    ensures IsHandle(n, handle) ==> r == n.(listeners := true)
    ensures n.Element? && !IsHandle(n, handle) ==> r.listeners == n.listeners
    decreases n
  {
    match n
    case Text(_) => n
    case Element(cls, ls, children) =>
      if cls != "" && Contains(cls, handle) then Element(cls, true, children)
      else Element(cls, ls, AttachAll(children, handle))
  }

  /** `findAndAttachToHandle` on a list of children, child by child. */
  function AttachAll(children: seq<Node>, handle: string): (r: seq<Node>)
    ensures |r| == |children|
    decreases children
  {
    seq(|children|, i requires 0 <= i < |children| => AttachToHandle(children[i], handle))
  }

  /** `findAndAttachToHandle`: `Children.map` always returns an array. */
  function FindAndAttachToHandle(children: ReactNode, handle: string): (r: ReactNode)
    ensures r.List?
  {
    match children
    case Single(n) => List(AttachAll([n], handle))
    case List(ns) => List(AttachAll(ns, handle))
  }

  predicate IsValidElement(r: ReactNode)
  {
    r.Single? && r.node.Element?
  }

  // ---------------------------------------------------------------------
  // Properties of the rewrite
  // ---------------------------------------------------------------------

  /** The tree with every listener flag cleared: what the rewrite must not change. */
  function Erase(n: Node): Node
    decreases n
  {
    match n
    case Text(_) => n
    case Element(cls, _, children) =>
      Element(cls, false, seq(|children|, i requires 0 <= i < |children| => Erase(children[i])))
  }

  /** The rewrite changes only listener flags: the tree's shape, class names, texts and child order are kept. */
  lemma {:induction false} AttachKeepsShape(n: Node, handle: string)
    ensures Erase(AttachToHandle(n, handle)) == Erase(n)
    decreases n
  {
    match n
    case Text(_) =>
    case Element(cls, ls, children) =>
      if !IsHandle(n, handle) {
        var r := AttachAll(children, handle);
        forall i | 0 <= i < |children|
          ensures Erase(r[i]) == Erase(children[i])
        {
          AttachKeepsShape(children[i], handle);
        }
      }
  }

  /** Rewriting twice gives the same tree as rewriting once. */
  lemma {:induction false} AttachIdempotent(n: Node, handle: string)
    ensures AttachToHandle(AttachToHandle(n, handle), handle) == AttachToHandle(n, handle)
    decreases n
  {
    match n
    case Text(_) =>
    case Element(cls, ls, children) =>
      if !IsHandle(n, handle) {
        var r := AttachAll(children, handle);
        forall i | 0 <= i < |children|
          ensures AttachToHandle(r[i], handle) == r[i]
        {
          AttachIdempotent(children[i], handle);
        }
        assert AttachAll(r, handle) == r;
      }
  }

  predicate NoListeners(n: Node)
    decreases n
  {
    match n
    case Text(_) => true
    case Element(_, ls, children) => !ls && forall i :: 0 <= i < |children| ==> NoListeners(children[i])
  }

  /**
   * The listeners sit exactly on the topmost handles: every handle not inside
   * another handle has them, and no other element does.
   */
  predicate ListenersOnTopmostHandles(n: Node, handle: string)
    decreases n
  {
    match n
    case Text(_) => true
    case Element(_, ls, children) =>
      if IsHandle(n, handle) then ls && forall i :: 0 <= i < |children| ==> NoListeners(children[i])
      else !ls && forall i :: 0 <= i < |children| ==> ListenersOnTopmostHandles(children[i], handle)
  }

  /** On a tree without listeners, the rewrite puts them on the topmost handles and nowhere else. */
  lemma {:induction false} AttachReachesTopmostHandles(n: Node, handle: string)
    requires NoListeners(n)
    ensures ListenersOnTopmostHandles(AttachToHandle(n, handle), handle)
    decreases n
  {
    match n
    case Text(_) =>
    case Element(cls, ls, children) =>
      var r := AttachToHandle(n, handle);
      if !IsHandle(n, handle) {
        assert !IsHandle(r, handle);
        assert r.children == AttachAll(children, handle);
        forall i | 0 <= i < |children|
          ensures ListenersOnTopmostHandles(r.children[i], handle)
        {
          assert NoListeners(children[i]);
          AttachReachesTopmostHandles(children[i], handle);
        }
      }
  }

  // ---------------------------------------------------------------------
  // The drag source
  // ---------------------------------------------------------------------

  /**
   * `DraggableContent` as written: the rewritten children are used only if
   * they form a single valid element, which an array never is.
   */
  function DraggableContentAsWritten(child: Node, handleClassName: Option<string>): (w: Wrapper)
    ensures w == Wrapper(true, Single(child))
  {
    if handleClassName.Some? && handleClassName.value != "" then
      var childrenWithHandlers := FindAndAttachToHandle(Single(child), handleClassName.value);
      if IsValidElement(childrenWithHandlers) then Wrapper(false, childrenWithHandlers)
      else Wrapper(true, Single(child))
    else Wrapper(true, Single(child))
  }

  /** A panel whose handle is its first child: the as-written drag source leaves the handle without listeners. */
  lemma HandleIgnoredAsWritten()
    ensures var panel := Element("panel", false, [Element("drag-handle", false, []), Text("body")]);
            var w := DraggableContentAsWritten(panel, Some("drag-handle"));
            w.listeners && w.content == Single(panel) && !w.content.node.children[0].listeners
  {
  }

  /**
   * `DraggableContent` as intended: with a handle class name, the single
   * rewritten element is wrapped without listeners; without one, the wrapper
   * carries them.
   */
  function DraggableContent(child: Node, handleClassName: Option<string>): (w: Wrapper)
    ensures w.content.Single?
    ensures child.Element? && handleClassName.Some? && handleClassName.value != "" ==>
      !w.listeners && w.content == Single(AttachToHandle(child, handleClassName.value))
    ensures child.Text? || handleClassName.None? || handleClassName.value == "" ==>
      w == Wrapper(true, Single(child))
  {
    if handleClassName.Some? && handleClassName.value != "" then
      var rewritten := AttachToHandle(child, handleClassName.value);
      if IsValidElement(Single(rewritten)) then Wrapper(false, Single(rewritten))
      else Wrapper(true, Single(child))
    else Wrapper(true, Single(child))
  }

  /** With a handle class name and a listener-free element, the listeners reach exactly the topmost handles. */
  lemma ListenersOnlyOnHandles(child: Node, handleClassName: string)
    requires child.Element? && NoListeners(child) && handleClassName != ""
    ensures !DraggableContent(child, Some(handleClassName)).listeners
    ensures ListenersOnTopmostHandles(DraggableContent(child, Some(handleClassName)).content.node, handleClassName)
    ensures Erase(DraggableContent(child, Some(handleClassName)).content.node) == Erase(child)
  {
    AttachReachesTopmostHandles(child, handleClassName);
    AttachKeepsShape(child, handleClassName);
  }

  /**
   * `DraggableWrapper` as written: non-element children are returned unchanged;
   * an element goes into the drag source with the listeners on the wrapper and
   * the element itself untouched, whatever the handle class name.
   */
  function Render(children: Node, handleClassName: Option<string>): (r: Rendered)
    ensures children.Text? <==> r == Bare(children)
    ensures children.Element? ==> r.InDragSource? && r.wrapper.listeners && r.wrapper.content == Single(children)
  {
    if children.Text? then Bare(children)
    else InDragSource(DraggableContentAsWritten(children, handleClassName))
  }

  /**
   * `DraggableWrapper` as intended: with a handle class name, the listeners go
   * to the topmost handles inside a listener-free element and not to the wrapper;
   * without one, they go to the wrapper.
   */
  function RenderIntended(children: Node, handleClassName: Option<string>): (r: Rendered)
    ensures children.Text? <==> r == Bare(children)
    ensures children.Element? ==> r.InDragSource? && r.wrapper.content.Single? && Erase(r.wrapper.content.node) == Erase(children)
    ensures children.Element? && (handleClassName.None? || handleClassName.value == "") ==>
      r == InDragSource(Wrapper(true, Single(children)))
    ensures children.Element? && NoListeners(children) && handleClassName.Some? && handleClassName.value != "" ==>
      !r.wrapper.listeners && ListenersOnTopmostHandles(r.wrapper.content.node, handleClassName.value)
  {
    if children.Text? then Bare(children)
    else
      AttachKeepsShape(children, handleClassName.GetOr(""));
      if handleClassName.Some? && handleClassName.value != "" && NoListeners(children) then
        ListenersOnlyOnHandles(children, handleClassName.value);
        InDragSource(DraggableContent(children, handleClassName))
      else InDragSource(DraggableContent(children, handleClassName))
  }
}
