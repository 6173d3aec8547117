/** The widget dispatcher of `senaite.core.widgets.js`: a fixed, ordered
    registry of (selector, renderer) entries; `render_all_widgets(root)`,
    which runs each entry's renderer on every matching element below the
    root (or in the whole document) and files the returned controller in the
    global namespace `window.senaite.core.widgets` under the element's `id`,
    else its JSON-decoded `data-id`; and the two triggers that call it.

    The DOM is a sequence of elements in document order, each naming its
    parent; CSS selector matching is a predicate over selectors and element
    positions; JSON decoding of `data-id` is a partial function. */
module Widgets {

  import opened Wrappers

  // ---------------------------------------------------------------------
  // The registry
  // ---------------------------------------------------------------------

  /** The renderers `senaite.core.widgets.js` imports, one per widget kind. */
  datatype WidgetKind = QuerySelect | UidReference | Address | Phone | TinyMCE

  /** A registry entry; an entry without a renderer is a configuration error
      that surfaces only once its selector matches an element. */
  datatype Entry = Entry(selector: string, renderer: Option<WidgetKind>)

  /** `WIDGETS`, in declared order. */
  const Registry: seq<Entry> := [
    Entry(".senaite-queryselect-widget-input", Some(QuerySelect)),
    Entry(".senaite-uidreference-widget-input", Some(UidReference)),
    Entry(".senaite-address-widget-input", Some(Address)),
    Entry(".senaite-phone-widget-input", Some(Phone)),
    Entry("textarea.mce_editable,div.ArchetypesRichWidget textarea,"
          + "textarea[name='form.widgets.IRichTextBehavior.text'],textarea.richTextWidget",
          Some(TinyMCE))
  ]

  // ---------------------------------------------------------------------
  // The document
  // ---------------------------------------------------------------------

  /** An element: its parent's position (None for a top-level element), its
      `id` ("" when absent, as `element.id` reads) and its `data-id` ("" when
      absent or empty: both are falsy for `element.dataset.id`). */
  datatype Element = Element(parent: Option<nat>, id: string, dataId: string)

  /** The root argument: not a Node (the whole document is scanned), or the
      element at a position of the document. */
  datatype Root = NotANode | ANode(node: nat)

  /** Element i lies strictly below element r. In a document a parent comes
      before its children, so the walk up the parents only goes backwards. */
  predicate Below(doc: seq<Element>, i: nat, r: nat)
    decreases i
  {
    && i < |doc|
    && doc[i].parent.Some?
    && doc[i].parent.value < i
    && (doc[i].parent.value == r || Below(doc, doc[i].parent.value, r))
  }

  /** The elements `root.querySelectorAll` looks at: the whole document, or
      the descendants of the root (the root itself excluded). */
  predicate InScope(doc: seq<Element>, root: Root, i: nat) {
    i < |doc| && (root.ANode? ==> Below(doc, i, root.node))
  }

  /** `root.querySelectorAll(selector)` among the first n elements. */
  function QueryPrefix(doc: seq<Element>, root: Root, matches: (string, nat) -> bool, selector: string, n: nat)
    : (found: seq<nat>)
    requires n <= |doc|
    ensures forall a, b :: 0 <= a < b < |found| ==> found[a] < found[b]
    ensures forall j :: 0 <= j < |found| ==> found[j] < n
    ensures forall i: nat :: i in found <==> i < n && InScope(doc, root, i) && matches(selector, i)
  {
    if n == 0 then []
    else
      var before := QueryPrefix(doc, root, matches, selector, n - 1);
      if InScope(doc, root, n - 1) && matches(selector, n - 1) then before + [n - 1] else before
  }

  /** `root.querySelectorAll(selector)`: every matching element in scope,
      each once, in document order. */
  function QuerySelectorAll(doc: seq<Element>, root: Root, matches: (string, nat) -> bool, selector: string)
    : (found: seq<nat>)
    ensures forall a, b :: 0 <= a < b < |found| ==> found[a] < found[b]
    ensures forall i: nat :: i in found <==> InScope(doc, root, i) && matches(selector, i)
    ensures forall j :: 0 <= j < |found| ==> found[j] < |doc|
  {
    QueryPrefix(doc, root, matches, selector, |doc|)
  }

  // ---------------------------------------------------------------------
  // Identifiers
  // ---------------------------------------------------------------------

  /** How an element is filed: under a key, not at all (a warning), or not
      reached because `JSON.parse` threw on its `data-id`. */
  datatype Resolution = Keyed(key: string) | Unkeyed | Malformed

  /** The identifier of an element: a non-empty `id` wins and `data-id` is
      then not read; otherwise a non-empty `data-id` is decoded by `parse`
      (None: JSON.parse throws); with neither there is no key. */
  function ResolveKey(e: Element, parse: string -> Option<string>): (r: Resolution)
    ensures e.id != "" ==> r == Keyed(e.id)
    ensures e.id == "" && e.dataId != "" && parse(e.dataId).Some? ==> r == Keyed(parse(e.dataId).value)
    ensures e.id == "" && e.dataId != "" && parse(e.dataId).None? ==> r == Malformed
    ensures e.id == "" && e.dataId == "" ==> r == Unkeyed
  {
    if e.id != "" then Keyed(e.id)
    else if e.dataId != "" then
      (match parse(e.dataId)
       case Some(key) => Keyed(key)
       case None => Malformed)
    else Unkeyed
  }

  // ---------------------------------------------------------------------
  // Dispatch, as a function of the state
  // ---------------------------------------------------------------------

  /** A controller returned by a renderer: its kind, its element, and the
      number of renderer calls made before it, so each call's controller is
      a new one. */
  datatype Controller = Controller(kind: WidgetKind, element: nat, serial: nat)

  /** One renderer call, on one element. */
  datatype Call = Call(kind: WidgetKind, element: nat)

  datatype Error = RendererRequired | MalformedDataId(element: nat)

  datatype Outcome = Completed | Threw(error: Error)

  /** What dispatch changes or leaves behind: the controller namespace, the
      renderer calls made so far, and the elements warned about. */
  datatype State = State(widgets: map<string, Controller>, calls: seq<Call>, warnings: seq<nat>)

  datatype Run = Run(state: State, outcome: Outcome)

  /** One element under a renderer: call it, then file the controller. */
  function RenderElement(kind: WidgetKind, doc: seq<Element>, parse: string -> Option<string>, i: nat, s: State): (r: Run)
    requires i < |doc|
    ensures r.state.calls == s.calls + [Call(kind, i)]
    ensures r.outcome.Threw? <==> ResolveKey(doc[i], parse).Malformed?
    ensures r.outcome.Threw? ==> r.outcome.error == MalformedDataId(i)
    ensures ResolveKey(doc[i], parse).Keyed? ==>
      r.state.widgets == s.widgets[ResolveKey(doc[i], parse).key := Controller(kind, i, |s.calls|)]
    ensures !ResolveKey(doc[i], parse).Keyed? ==> r.state.widgets == s.widgets
    ensures r.state.warnings == s.warnings + (if ResolveKey(doc[i], parse).Unkeyed? then [i] else [])
  {
    var controller := Controller(kind, i, |s.calls|);
    var called := s.(calls := s.calls + [Call(kind, i)]);
    match ResolveKey(doc[i], parse)
    case Keyed(key) => Run(called.(widgets := called.widgets[key := controller]), Completed)
    case Unkeyed => Run(called.(warnings := called.warnings + [i]), Completed)
    case Malformed => Run(called, Threw(MalformedDataId(i)))
  }

  /** The inner loop: the elements one entry's selector found, in order,
      stopping at the first exception. */
  function RenderMatches(entry: Entry, doc: seq<Element>, parse: string -> Option<string>, els: seq<nat>, s: State): (r: Run)
    requires forall j :: 0 <= j < |els| ==> els[j] < |doc|
    ensures s.calls <= r.state.calls && |r.state.calls| <= |s.calls| + |els|
    ensures r.outcome.Completed? ==> |r.state.calls| == |s.calls| + |els|
    ensures s.warnings <= r.state.warnings
    ensures |r.state.warnings| - |s.warnings| <= |r.state.calls| - |s.calls|
    decreases |els|
  {
    if els == [] then Run(s, Completed)
    else if entry.renderer.None? then Run(s, Threw(RendererRequired))
    else
      var r := RenderElement(entry.renderer.value, doc, parse, els[0], s);
      if r.outcome.Threw? then r else RenderMatches(entry, doc, parse, els[1..], r.state)
  }

  /** `render_all_widgets(root)`: the registry in order, stopping at the
      first exception. */
  function RenderEntries(
    registry: seq<Entry>, doc: seq<Element>, matches: (string, nat) -> bool,
    parse: string -> Option<string>, root: Root, s: State): (r: Run)
    ensures s.calls <= r.state.calls && s.warnings <= r.state.warnings
    ensures |r.state.warnings| - |s.warnings| <= |r.state.calls| - |s.calls|
    decreases |registry|
  {
    if registry == [] then Run(s, Completed)
    else
      var r := RenderMatches(registry[0], doc, parse, QuerySelectorAll(doc, root, matches, registry[0].selector), s);
      if r.outcome.Threw? then r else RenderEntries(registry[1..], doc, matches, parse, root, r.state)
  }

  // ---------------------------------------------------------------------
  // Order: the renderer calls follow the registry, then the document
  // ---------------------------------------------------------------------

  /** One renderer call per element, in the order given. */
  function CallsFor(kind: WidgetKind, els: seq<nat>): seq<Call> {
    seq(|els|, j requires 0 <= j < |els| => Call(kind, els[j]))
  }

  /** The renderer calls a dispatch makes when nothing throws: the entries
      in registry order, and within an entry its matches in document order. */
  function Planned(registry: seq<Entry>, doc: seq<Element>, matches: (string, nat) -> bool, root: Root): seq<Call>
    decreases |registry|
  {
    if registry == [] then []
    else
      (if registry[0].renderer.Some?
       then CallsFor(registry[0].renderer.value, QuerySelectorAll(doc, root, matches, registry[0].selector))
       else [])
      + Planned(registry[1..], doc, matches, root)
  }

  /** The run r, started with the calls before, made a prefix of the calls
      plan lists, and all of them if it completed. */
  predicate FollowsPlan(before: seq<Call>, r: Run, plan: seq<Call>) {
    && |before| <= |r.state.calls| && r.state.calls[..|before|] == before
    && r.state.calls[|before|..] <= plan
    && (r.outcome.Completed? ==> r.state.calls == before + plan)
  }

  /** A completed first part followed by a run that follows the rest of the
      plan follows the whole plan. */
  lemma FollowsPlanChain(before: seq<Call>, mine: seq<Call>, rest: seq<Call>, r: Run)
    requires FollowsPlan(before + mine, r, rest)
    ensures FollowsPlan(before, r, mine + rest)
  {
    var c := r.state.calls;
    assert c[..|before|] == c[..|before| + |mine|][..|before|];
    assert c[|before|..] == mine + c[|before| + |mine|..];
  }

  /** A run that stopped within the first part follows the whole plan. */
  lemma FollowsPlanStop(before: seq<Call>, mine: seq<Call>, rest: seq<Call>, r: Run)
    requires r.outcome.Threw? && |before| <= |r.state.calls| && r.state.calls[..|before|] == before
    requires r.state.calls[|before|..] <= mine
    ensures FollowsPlan(before, r, mine + rest)
  {
    assert (mine + rest)[..|r.state.calls[|before|..]|] == mine[..|r.state.calls[|before|..]|];
  }

  /** Under a renderer, the inner loop follows the plan of one call per
      element, and never throws "Widget renderer required". */
  lemma {:induction false} RenderMatchesFollows(
    entry: Entry, doc: seq<Element>, parse: string -> Option<string>, els: seq<nat>, s: State)
    requires entry.renderer.Some?
    requires forall j :: 0 <= j < |els| ==> els[j] < |doc|
    ensures var r := RenderMatches(entry, doc, parse, els, s);
      && FollowsPlan(s.calls, r, CallsFor(entry.renderer.value, els))
      && r.outcome != Threw(RendererRequired)
    decreases |els|
  {
    var kind := entry.renderer.value;
    if els == [] {
      assert s.calls[..|s.calls|] == s.calls;
    } else {
      var r1 := RenderElement(kind, doc, parse, els[0], s);
      var mine := [Call(kind, els[0])];
      assert r1.state.calls == s.calls + mine;
      assert CallsFor(kind, els) == mine + CallsFor(kind, els[1..]);
      if r1.outcome.Threw? {
        assert r1.state.calls[..|s.calls|] == s.calls && r1.state.calls[|s.calls|..] == mine;
        FollowsPlanStop(s.calls, mine, CallsFor(kind, els[1..]), r1);
      } else {
        RenderMatchesFollows(entry, doc, parse, els[1..], r1.state);
        FollowsPlanChain(s.calls, mine, CallsFor(kind, els[1..]), RenderMatches(entry, doc, parse, els[1..], r1.state));
      }
    }
  }

  /** The inner loop calls the renderer on a prefix of the elements, on all
      of them when it completes; an entry without a renderer makes no call
      and throws exactly when it found an element. */
  lemma RenderMatchesCalls(
    entry: Entry, doc: seq<Element>, parse: string -> Option<string>, els: seq<nat>, s: State)
    requires forall j :: 0 <= j < |els| ==> els[j] < |doc|
    ensures var r := RenderMatches(entry, doc, parse, els, s);
      && |s.calls| <= |r.state.calls| && r.state.calls[..|s.calls|] == s.calls
      && (entry.renderer.None? ==> r.state == s && (r.outcome.Completed? <==> els == []))
      && (entry.renderer.None? && els != [] ==> r.outcome == Threw(RendererRequired))
      && (entry.renderer.Some? ==> r.state.calls[|s.calls|..] <= CallsFor(entry.renderer.value, els))
      && (entry.renderer.Some? ==> r.outcome != Threw(RendererRequired))
      && (entry.renderer.Some? && r.outcome.Completed? ==>
            r.state.calls == s.calls + CallsFor(entry.renderer.value, els))
  {
    if entry.renderer.Some? {
      RenderMatchesFollows(entry, doc, parse, els, s);
    } else {
      assert s.calls[..|s.calls|] == s.calls;
    }
  }

  /** The calls a dispatch makes are a prefix of the planned ones, all of
      them when it completes. */
  lemma {:induction false} DispatchFollowsPlan(
    registry: seq<Entry>, doc: seq<Element>, matches: (string, nat) -> bool,
    parse: string -> Option<string>, root: Root, s: State)
    ensures FollowsPlan(s.calls, RenderEntries(registry, doc, matches, parse, root, s), Planned(registry, doc, matches, root))
    decreases |registry|
  {
    if registry == [] {
      assert s.calls[..|s.calls|] == s.calls && s.calls + [] == s.calls;
    } else {
      var entry := registry[0];
      var els := QuerySelectorAll(doc, root, matches, entry.selector);
      var mine := if entry.renderer.Some? then CallsFor(entry.renderer.value, els) else [];
      var rest := Planned(registry[1..], doc, matches, root);
      assert Planned(registry, doc, matches, root) == mine + rest;
      RenderMatchesCalls(entry, doc, parse, els, s);
      var r1 := RenderMatches(entry, doc, parse, els, s);
      if r1.outcome.Completed? {
        assert r1.state.calls == s.calls + mine;
        DispatchFollowsPlan(registry[1..], doc, matches, parse, root, r1.state);
        FollowsPlanChain(s.calls, mine, rest, RenderEntries(registry[1..], doc, matches, parse, root, r1.state));
      } else {
        if entry.renderer.None? {
          assert r1.state.calls[|s.calls|..] == [];
        }
        FollowsPlanStop(s.calls, mine, rest, r1);
      }
    }
  }

  /** Every planned call is on an element in the root's scope. */
  lemma {:induction false} PlannedInScope(
    registry: seq<Entry>, doc: seq<Element>, matches: (string, nat) -> bool, root: Root, j: nat)
    requires j < |Planned(registry, doc, matches, root)|
    ensures InScope(doc, root, Planned(registry, doc, matches, root)[j].element)
    decreases |registry|
  {
    var entry := registry[0];
    var mine := if entry.renderer.Some?
      then CallsFor(entry.renderer.value, QuerySelectorAll(doc, root, matches, entry.selector)) else [];
    if j >= |mine| {
      PlannedInScope(registry[1..], doc, matches, root, j - |mine|);
    } else {
      var els := QuerySelectorAll(doc, root, matches, entry.selector);
      assert els[j] in els;
    }
  }

  /** Every planned call runs the renderer of an entry whose selector matches
      the call's element. */
  lemma {:induction false} PlannedMatches(
    registry: seq<Entry>, doc: seq<Element>, matches: (string, nat) -> bool, root: Root, j: nat)
    requires j < |Planned(registry, doc, matches, root)|
    ensures exists k :: 0 <= k < |registry| && registry[k].renderer == Some(Planned(registry, doc, matches, root)[j].kind)
                        && matches(registry[k].selector, Planned(registry, doc, matches, root)[j].element)
    decreases |registry|
  {
    var entry := registry[0];
    var mine := if entry.renderer.Some?
      then CallsFor(entry.renderer.value, QuerySelectorAll(doc, root, matches, entry.selector)) else [];
    var call := Planned(registry, doc, matches, root)[j];
    if j >= |mine| {
      PlannedMatches(registry[1..], doc, matches, root, j - |mine|);
      var k :| 0 <= k < |registry[1..]| && registry[1..][k].renderer == Some(call.kind)
               && matches(registry[1..][k].selector, call.element);
      assert registry[k + 1] == registry[1..][k];
      assert registry[k + 1].renderer == Some(call.kind) && matches(registry[k + 1].selector, call.element);
    } else {
      var els := QuerySelectorAll(doc, root, matches, entry.selector);
      assert els[j] in els;
      assert call == Call(entry.renderer.value, els[j]);
      assert registry[0].renderer == Some(call.kind) && matches(registry[0].selector, call.element);
    }
  }

  // ---------------------------------------------------------------------
  // The missing-renderer error
  // ---------------------------------------------------------------------

  /** Entry j has no renderer although its selector finds an element. */
  predicate Misconfigured(registry: seq<Entry>, doc: seq<Element>, matches: (string, nat) -> bool, root: Root, j: nat) {
    j < |registry| && registry[j].renderer.None?
    && QuerySelectorAll(doc, root, matches, registry[j].selector) != []
  }

  /** Every `data-id` that would be decoded is well-formed JSON. */
  predicate DataIdsDecode(doc: seq<Element>, parse: string -> Option<string>) {
    forall i :: 0 <= i < |doc| && doc[i].id == "" && doc[i].dataId != "" ==> parse(doc[i].dataId).Some?
  }

  /** With a renderer and decodable data-ids, the inner loop completes. */
  lemma {:induction false} RenderMatchesCompletes(
    entry: Entry, doc: seq<Element>, parse: string -> Option<string>, els: seq<nat>, s: State)
    requires forall j :: 0 <= j < |els| ==> els[j] < |doc|
    requires entry.renderer.Some? && DataIdsDecode(doc, parse)
    ensures RenderMatches(entry, doc, parse, els, s).outcome == Completed
  {
    if els != [] {
      var r1 := RenderElement(entry.renderer.value, doc, parse, els[0], s);
      assert r1.outcome == Completed;
      RenderMatchesCompletes(entry, doc, parse, els[1..], r1.state);
    }
  }

  /** "Widget renderer required" is thrown only for an entry without a
      renderer whose selector matches; when every data-id decodes, it is
      thrown exactly then, and otherwise the dispatch completes. */
  lemma {:induction false} RendererRequiredIff(
    registry: seq<Entry>, doc: seq<Element>, matches: (string, nat) -> bool,
    parse: string -> Option<string>, root: Root, s: State)
    ensures var r := RenderEntries(registry, doc, matches, parse, root, s);
      r.outcome == Threw(RendererRequired) ==> exists j: nat :: Misconfigured(registry, doc, matches, root, j)
    ensures var r := RenderEntries(registry, doc, matches, parse, root, s);
      DataIdsDecode(doc, parse) ==>
        && (r.outcome == Threw(RendererRequired) <==> exists j: nat :: Misconfigured(registry, doc, matches, root, j))
        && (r.outcome != Threw(RendererRequired) ==> r.outcome == Completed)
    decreases |registry|
  {
    if registry != [] {
      var entry := registry[0];
      var els := QuerySelectorAll(doc, root, matches, entry.selector);
      RenderMatchesCalls(entry, doc, parse, els, s);
      var r1 := RenderMatches(entry, doc, parse, els, s);
      if DataIdsDecode(doc, parse) && entry.renderer.Some? {
        RenderMatchesCompletes(entry, doc, parse, els, s);
      }
      if r1.outcome.Completed? {
        RendererRequiredIff(registry[1..], doc, matches, parse, root, r1.state);
        assert entry.renderer.Some? || els == [];
        assert !Misconfigured(registry, doc, matches, root, 0);
        forall j: nat | Misconfigured(registry[1..], doc, matches, root, j)
          ensures Misconfigured(registry, doc, matches, root, j + 1)
        {
          assert registry[1..][j] == registry[j + 1];
        }
        forall j: nat | 1 <= j && Misconfigured(registry, doc, matches, root, j)
          ensures Misconfigured(registry[1..], doc, matches, root, j - 1)
        {
          assert registry[1..][j - 1] == registry[j];
        }
      } else if r1.outcome == Threw(RendererRequired) {
        assert Misconfigured(registry, doc, matches, root, 0);
      }
    }
  }

  /** The registry as shipped gives every entry a renderer, so it never
      throws "Widget renderer required". */
  lemma ShippedRegistryHasRenderers(
    doc: seq<Element>, matches: (string, nat) -> bool, parse: string -> Option<string>, root: Root, s: State)
    ensures RenderEntries(Registry, doc, matches, parse, root, s).outcome != Threw(RendererRequired)
  {
    RegistryRenderers();
    RendererRequiredIff(Registry, doc, matches, parse, root, s);
  }

  /** Each entry of the shipped registry names its renderer. */
  lemma RegistryRenderers()
    ensures forall j: nat :: j < |Registry| ==> Registry[j].renderer.Some?
  {
    var kinds := seq(|Registry|, j requires 0 <= j < |Registry| => Registry[j].renderer);
    assert kinds == [Some(QuerySelect), Some(UidReference), Some(Address), Some(Phone), Some(TinyMCE)];
  }

  /** Running the registry a + b is running a, then b unless a threw. */
  lemma {:induction false} DispatchSplits(
    a: seq<Entry>, b: seq<Entry>, doc: seq<Element>, matches: (string, nat) -> bool,
    parse: string -> Option<string>, root: Root, s: State)
    ensures RenderEntries(a + b, doc, matches, parse, root, s) ==
      var r := RenderEntries(a, doc, matches, parse, root, s);
      if r.outcome.Threw? then r else RenderEntries(b, doc, matches, parse, root, r.state)
    decreases |a|
  {
    if a == [] {
      assert a + b == b;
    } else {
      assert (a + b)[0] == a[0] && (a + b)[1..] == a[1..] + b;
      var r1 := RenderMatches(a[0], doc, parse, QuerySelectorAll(doc, root, matches, a[0].selector), s);
      if r1.outcome.Completed? {
        DispatchSplits(a[1..], b, doc, matches, parse, root, r1.state);
      }
    }
  }

  /** When entry j is the first to throw "Widget renderer required", the
      writes of the entries before it stay: the result is the state those
      entries leave, with the error. */
  lemma EarlierEntriesKeepWrites(
    registry: seq<Entry>, doc: seq<Element>, matches: (string, nat) -> bool,
    parse: string -> Option<string>, root: Root, s: State, j: nat)
    requires Misconfigured(registry, doc, matches, root, j)
    requires RenderEntries(registry[..j], doc, matches, parse, root, s).outcome == Completed
    ensures RenderEntries(registry, doc, matches, parse, root, s)
            == Run(RenderEntries(registry[..j], doc, matches, parse, root, s).state, Threw(RendererRequired))
  {
    assert registry == registry[..j] + registry[j..];
    DispatchSplits(registry[..j], registry[j..], doc, matches, parse, root, s);
    assert registry[j..][0] == registry[j];
  }

  // ---------------------------------------------------------------------
  // Bookkeeping: which controller ends up under which key
  // ---------------------------------------------------------------------

  /** The key a call's controller is filed under, if any. */
  function KeyOfCall(doc: seq<Element>, parse: string -> Option<string>, c: Call): Option<string> {
    if c.element < |doc| && ResolveKey(doc[c.element], parse).Keyed?
    then Some(ResolveKey(doc[c.element], parse).key) else None
  }

  /** The namespace w after filing the controllers of calls[from..n], the
      controller of call m being the m-th one made. */
  function Registered(
    w: map<string, Controller>, doc: seq<Element>, parse: string -> Option<string>,
    calls: seq<Call>, from: nat, n: nat): map<string, Controller>
    requires from <= n <= |calls|
    decreases n
  {
    if n == from then w
    else
      var before := Registered(w, doc, parse, calls, from, n - 1);
      var c := calls[n - 1];
      match KeyOfCall(doc, parse, c)
      case Some(key) => before[key := Controller(c.kind, c.element, n - 1)]
      case None => before
  }

  /** The elements of calls[from..n] that have neither id nor data-id. */
  function Warned(doc: seq<Element>, parse: string -> Option<string>, calls: seq<Call>, from: nat, n: nat): seq<nat>
    requires from <= n <= |calls|
    decreases n
  {
    if n == from then []
    else
      var c := calls[n - 1];
      Warned(doc, parse, calls, from, n - 1)
      + (if c.element < |doc| && ResolveKey(doc[c.element], parse) == Unkeyed then [c.element] else [])
  }

  /** s extends s0 by renderer calls whose controllers were filed, and whose
      missing identifiers were warned about, one by one. */
  predicate Accounted(doc: seq<Element>, parse: string -> Option<string>, s0: State, s: State) {
    && |s0.calls| <= |s.calls| && s.calls[..|s0.calls|] == s0.calls
    && s.widgets == Registered(s0.widgets, doc, parse, s.calls, |s0.calls|, |s.calls|)
    && s.warnings == s0.warnings + Warned(doc, parse, s.calls, |s0.calls|, |s.calls|)
  }

  /** Appending a call leaves the filing of the earlier calls as it was. */
  lemma {:induction false} RegisteredExtend(
    w: map<string, Controller>, doc: seq<Element>, parse: string -> Option<string>,
    calls: seq<Call>, c: Call, from: nat, n: nat)
    requires from <= n <= |calls|
    ensures Registered(w, doc, parse, calls + [c], from, n) == Registered(w, doc, parse, calls, from, n)
    ensures Warned(doc, parse, calls + [c], from, n) == Warned(doc, parse, calls, from, n)
    decreases n
  {
    if n > from {
      assert (calls + [c])[n - 1] == calls[n - 1];
      RegisteredExtend(w, doc, parse, calls, c, from, n - 1);
    }
  }

  lemma RenderElementAccounted(
    kind: WidgetKind, doc: seq<Element>, parse: string -> Option<string>, i: nat, s0: State, s: State)
    requires i < |doc| && Accounted(doc, parse, s0, s)
    ensures Accounted(doc, parse, s0, RenderElement(kind, doc, parse, i, s).state)
  {
    var calls := s.calls + [Call(kind, i)];
    RegisteredExtend(s0.widgets, doc, parse, s.calls, Call(kind, i), |s0.calls|, |s.calls|);
    assert calls[..|s0.calls|] == s.calls[..|s0.calls|];
    assert calls[|calls| - 1] == Call(kind, i);
  }

  lemma {:induction false} RenderMatchesAccounted(
    entry: Entry, doc: seq<Element>, parse: string -> Option<string>, els: seq<nat>, s0: State, s: State)
    requires forall j :: 0 <= j < |els| ==> els[j] < |doc|
    requires Accounted(doc, parse, s0, s)
    ensures Accounted(doc, parse, s0, RenderMatches(entry, doc, parse, els, s).state)
  {
    if els != [] && entry.renderer.Some? {
      RenderElementAccounted(entry.renderer.value, doc, parse, els[0], s0, s);
      var r1 := RenderElement(entry.renderer.value, doc, parse, els[0], s);
      if r1.outcome.Completed? {
        RenderMatchesAccounted(entry, doc, parse, els[1..], s0, r1.state);
      }
    }
  }

  lemma {:induction false} RenderEntriesAccounted(
    registry: seq<Entry>, doc: seq<Element>, matches: (string, nat) -> bool,
    parse: string -> Option<string>, root: Root, s0: State, s: State)
    requires Accounted(doc, parse, s0, s)
    ensures Accounted(doc, parse, s0, RenderEntries(registry, doc, matches, parse, root, s).state)
    decreases |registry|
  {
    if registry != [] {
      var els := QuerySelectorAll(doc, root, matches, registry[0].selector);
      RenderMatchesAccounted(registry[0], doc, parse, els, s0, s);
      var r1 := RenderMatches(registry[0], doc, parse, els, s);
      if r1.outcome.Completed? {
        RenderEntriesAccounted(registry[1..], doc, matches, parse, root, s0, r1.state);
      }
    }
  }

  /** Whatever its outcome, a dispatch files the controller of each renderer
      call it made under that element's key, in call order, and warns once
      for each element without a key; nothing else changes the namespace. */
  lemma DispatchBookkeeping(
    registry: seq<Entry>, doc: seq<Element>, matches: (string, nat) -> bool,
    parse: string -> Option<string>, root: Root, s: State)
    ensures Accounted(doc, parse, s, RenderEntries(registry, doc, matches, parse, root, s).state)
  {
    assert s.calls[..|s.calls|] == s.calls;
    RenderEntriesAccounted(registry, doc, matches, parse, root, s, s);
  }

  /** The last call among calls[from..n] filed under key, if any. */
  function LastWriter(doc: seq<Element>, parse: string -> Option<string>, calls: seq<Call>, from: nat, n: nat, key: string)
    : (m: Option<nat>)
    requires from <= n <= |calls|
    ensures m.Some? ==>
      && from <= m.value < n
      && KeyOfCall(doc, parse, calls[m.value]) == Some(key)
      && forall j :: m.value < j < n ==> KeyOfCall(doc, parse, calls[j]) != Some(key)
    ensures m.None? ==> forall j :: from <= j < n ==> KeyOfCall(doc, parse, calls[j]) != Some(key)
    decreases n
  {
    if n == from then None
    else if KeyOfCall(doc, parse, calls[n - 1]) == Some(key) then Some(n - 1)
    else LastWriter(doc, parse, calls, from, n - 1, key)
  }

  /** Last write wins: a key holds the controller of the last call filed
      under it; a key no call was filed under keeps what it had, or stays
      absent. */
  lemma {:induction false} LastWriteWins(
    w: map<string, Controller>, doc: seq<Element>, parse: string -> Option<string>,
    calls: seq<Call>, from: nat, n: nat, key: string)
    requires from <= n <= |calls|
    ensures var r := Registered(w, doc, parse, calls, from, n);
      match LastWriter(doc, parse, calls, from, n, key)
      case Some(m) => key in r && r[key] == Controller(calls[m].kind, calls[m].element, m)
      case None => (key in r <==> key in w) && (key in w ==> r[key] == w[key])
    decreases n
  {
    if n > from {
      LastWriteWins(w, doc, parse, calls, from, n - 1, key);
    }
  }

  // ---------------------------------------------------------------------
  // Scope: a row-added dispatch stays inside the row
  // ---------------------------------------------------------------------

  /** A dispatch over a row calls renderers only on elements below the row,
      and a key that no element below the row resolves to keeps its
      controller (or stays absent). */
  lemma RowDispatchStaysInRow(
    registry: seq<Entry>, doc: seq<Element>, matches: (string, nat) -> bool,
    parse: string -> Option<string>, row: nat, s: State, key: string)
    requires forall i: nat :: Below(doc, i, row) ==> ResolveKey(doc[i], parse) != Keyed(key)
    ensures var r := RenderEntries(registry, doc, matches, parse, ANode(row), s);
      && (forall j :: |s.calls| <= j < |r.state.calls| ==> Below(doc, r.state.calls[j].element, row))
      && (key in r.state.widgets <==> key in s.widgets)
      && (key in s.widgets ==> r.state.widgets[key] == s.widgets[key])
  {
    var r := RenderEntries(registry, doc, matches, parse, ANode(row), s);
    var plan := Planned(registry, doc, matches, ANode(row));
    DispatchFollowsPlan(registry, doc, matches, parse, ANode(row), s);
    DispatchBookkeeping(registry, doc, matches, parse, ANode(row), s);
    forall j | |s.calls| <= j < |r.state.calls|
      ensures Below(doc, r.state.calls[j].element, row)
      ensures KeyOfCall(doc, parse, r.state.calls[j]) != Some(key)
    {
      assert r.state.calls[j] == r.state.calls[|s.calls|..][j - |s.calls|] == plan[j - |s.calls|];
      PlannedInScope(registry, doc, matches, ANode(row), j - |s.calls|);
    }
    LastWriteWins(s.widgets, doc, parse, r.state.calls, |s.calls|, |r.state.calls|, key);
    assert LastWriter(doc, parse, r.state.calls, |s.calls|, |r.state.calls|, key).None?;
  }

  // ---------------------------------------------------------------------
  // The global namespace: `x = x || {}` along window.senaite.core.widgets
  // ---------------------------------------------------------------------

  /** The JavaScript values the initialisation can meet; functions and other
      objects are `Obj`, with their own properties. */
  datatype JsValue = Undefined | Null | Bool(b: bool) | Num(n: int) | Str(s: string) | Obj(props: map<string, JsValue>)

  predicate Truthy(v: JsValue) {
    match v
    case Undefined => false
    case Null => false
    case Bool(b) => b
    case Num(n) => n != 0
    case Str(t) => t != ""
    case Obj(_) => true
  }

  /** `props[key]`: undefined for a missing property. */
  function Lookup(props: map<string, JsValue>, key: string): JsValue {
    if key in props then props[key] else Undefined
  }

  /** `v || {}`. */
  function OrEmpty(v: JsValue): (r: JsValue)
    ensures Truthy(r)
    ensures Truthy(v) ==> r == v
    ensures !Truthy(v) ==> r == Obj(map[])
  {
    if Truthy(v) then v else Obj(map[])
  }

  /** The initialisation fails (TypeError, the script being a strict-mode
      module) exactly when it must set a property on a truthy primitive:
      `window.senaite`, or `window.senaite.core`. */
  predicate BlocksNamespace(window: map<string, JsValue>) {
    var senaite := Lookup(window, "senaite");
    || (Truthy(senaite) && !senaite.Obj?)
    || (senaite.Obj? && Truthy(Lookup(senaite.props, "core")) && !Lookup(senaite.props, "core").Obj?)
  }

  /** Afterwards `window.senaite.core.widgets` can be read: senaite and core
      are objects, and widgets is truthy. */
  predicate NamespaceReady(window: map<string, JsValue>) {
    && "senaite" in window && window["senaite"].Obj?
    && "core" in window["senaite"].props && window["senaite"].props["core"].Obj?
    && "widgets" in window["senaite"].props["core"].props
    && Truthy(window["senaite"].props["core"].props["widgets"])
  }

  /** The three assignments at the top of the script, on the globals of the
      window; None is the TypeError of assigning to a primitive's property. */
  function InitNamespace(window: map<string, JsValue>): (r: Option<map<string, JsValue>>)
    ensures r.None? <==> BlocksNamespace(window)
    ensures r.Some? ==> NamespaceReady(r.value)
    ensures r.Some? ==> forall key :: key in window && key != "senaite" ==> key in r.value && r.value[key] == window[key]
  {
    var senaite := OrEmpty(Lookup(window, "senaite"));
    if !senaite.Obj? then None
    else
      var core := OrEmpty(Lookup(senaite.props, "core"));
      if !core.Obj? then None
      else
        var widgets := OrEmpty(Lookup(core.props, "widgets"));
        Some(window["senaite" := Obj(senaite.props["core" := Obj(core.props["widgets" := widgets])])])
  }

  /** Loading the script twice changes nothing the second time. */
  lemma InitIdempotent(window: map<string, JsValue>)
    requires InitNamespace(window).Some?
    ensures InitNamespace(InitNamespace(window).value) == InitNamespace(window)
  {
    var w := InitNamespace(window).value;
    var senaite := w["senaite"];
    var core := senaite.props["core"];
    assert core.props["widgets" := core.props["widgets"]] == core.props;
    assert senaite.props["core" := core] == senaite.props;
    assert w["senaite" := Obj(senaite.props)] == w;
  }

  /** Controllers already under `window.senaite.core.widgets`, and every other
      property along the path, survive the initialisation. */
  lemma InitKeepsExisting(window: map<string, JsValue>)
    requires InitNamespace(window).Some?
    ensures var senaite := Lookup(window, "senaite");
      var w := InitNamespace(window).value;
      senaite.Obj? ==>
        && (forall key :: key in senaite.props && key != "core" ==>
              key in w["senaite"].props && w["senaite"].props[key] == senaite.props[key])
        && var core := Lookup(senaite.props, "core");
           core.Obj? ==>
             && (forall key :: key in core.props ==> key in w["senaite"].props["core"].props)
             && (forall key :: key in core.props && key != "widgets" ==>
                   w["senaite"].props["core"].props[key] == core.props[key])
             && (Truthy(Lookup(core.props, "widgets")) ==>
                   w["senaite"].props["core"].props["widgets"] == core.props["widgets"])
  {
  }

  /** The initialisation adds exactly the three properties of the path: the
      window gains at most `senaite`, `senaite` at most `core`, `core` at most
      `widgets`; a falsy `widgets` becomes `{}`, and a falsy `core` becomes
      an object holding only an empty `widgets`. */
  lemma InitShape(window: map<string, JsValue>)
    requires InitNamespace(window).Some?
    ensures var w := InitNamespace(window).value;
      var senaite := Lookup(window, "senaite");
      var before := if senaite.Obj? then senaite.props else map[];
      var core := Lookup(before, "core");
      var coreBefore := if core.Obj? then core.props else map[];
      && w.Keys == window.Keys + {"senaite"}
      && w["senaite"].props.Keys == before.Keys + {"core"}
      && w["senaite"].props["core"].props.Keys == coreBefore.Keys + {"widgets"}
      && (Truthy(Lookup(coreBefore, "widgets")) ==>
            w["senaite"].props["core"].props["widgets"] == coreBefore["widgets"])
      && (!Truthy(Lookup(coreBefore, "widgets")) ==> w["senaite"].props["core"].props["widgets"] == Obj(map[]))
      && (!Truthy(core) ==> w["senaite"].props["core"] == Obj(map["widgets" := Obj(map[])]))
  {
  }

  /** On a page without the namespace, it is created empty. */
  lemma InitCreatesEmpty(window: map<string, JsValue>)
    requires !Truthy(Lookup(window, "senaite"))
    ensures InitNamespace(window)
            == Some(window["senaite" := Obj(map["core" := Obj(map["widgets" := Obj(map[])])])])
  {
  }

  // ---------------------------------------------------------------------
  // The controller namespace, updated in place
  // ---------------------------------------------------------------------

  /** `window.senaite.core.widgets`, together with the renderer calls made
      and the console warnings given while filling it. */
  class WidgetNamespace {
    var widgets: map<string, Controller>
    var calls: seq<Call>
    var warnings: seq<nat>
    /** Whether the `datagrid:row_added` listener is registered on the body. */
    var rowListening: bool

    function Snapshot(): State
      reads this
    {
      State(widgets, calls, warnings)
    }

    /** The namespace as found after the initialisation at the top of the
        script: any controllers already there are kept. */
    constructor (existing: map<string, Controller>)
      ensures widgets == existing && calls == [] && warnings == [] && !rowListening
    {
      widgets := existing;
      calls := [];
      warnings := [];
      rowListening := false;
    }

    /** `render_all_widgets(root)` over the given registry. */
    method RenderAllWidgets(
      registry: seq<Entry>, doc: seq<Element>, matches: (string, nat) -> bool,
      parse: string -> Option<string>, root: Root)
      returns (outcome: Outcome)
      modifies this
      ensures Run(Snapshot(), outcome) == RenderEntries(registry, doc, matches, parse, root, old(Snapshot()))
      ensures rowListening == old(rowListening)
    {
      var k := 0;
      while k < |registry|
        invariant 0 <= k <= |registry|
        invariant rowListening == old(rowListening)
        invariant RenderEntries(registry, doc, matches, parse, root, old(Snapshot()))
                  == RenderEntries(registry[k..], doc, matches, parse, root, Snapshot())
      {
        var entry := registry[k];
        var elements := QuerySelectorAll(doc, root, matches, entry.selector);
        assert registry[k..][0] == entry && registry[k..][1..] == registry[k + 1..];
        var step := RenderMatchesInPlace(entry, doc, parse, elements);
        if step.Threw? {
          return step;
        }
        k := k + 1;
      }
      outcome := Completed;
    }

    /** The inner `forEach` of one registry entry over the elements found. */
    method RenderMatchesInPlace(entry: Entry, doc: seq<Element>, parse: string -> Option<string>, elements: seq<nat>)
      returns (outcome: Outcome)
      requires forall j :: 0 <= j < |elements| ==> elements[j] < |doc|
      modifies this
      ensures Run(Snapshot(), outcome) == RenderMatches(entry, doc, parse, elements, old(Snapshot()))
      ensures rowListening == old(rowListening)
    {
      var renderer := entry.renderer;
      var j := 0;
      while j < |elements|
        invariant 0 <= j <= |elements|
        invariant rowListening == old(rowListening)
        invariant RenderMatches(entry, doc, parse, elements, old(Snapshot()))
                  == RenderMatches(entry, doc, parse, elements[j..], Snapshot())
      {
        assert elements[j..][0] == elements[j] && elements[j..][1..] == elements[j + 1..];
        if renderer.None? {
          return Threw(RendererRequired);
        }
        var step := RenderElementInPlace(renderer.value, doc, parse, elements[j]);
        if step.Threw? {
          return step;
        }
        j := j + 1;
      }
      assert elements[j..] == [];
      outcome := Completed;
    }

    /** The body of the inner loop: call the renderer on one element, then
        file its controller under the element's key, or warn. */
    method RenderElementInPlace(kind: WidgetKind, doc: seq<Element>, parse: string -> Option<string>, element: nat)
      returns (outcome: Outcome)
      requires element < |doc|
      modifies this
      ensures Run(Snapshot(), outcome) == RenderElement(kind, doc, parse, element, old(Snapshot()))
      ensures rowListening == old(rowListening)
    {
      var controller := Controller(kind, element, |calls|);
      calls := calls + [Call(kind, element)];
      outcome := Completed;
      match ResolveKey(doc[element], parse) {
        case Keyed(key) =>
          widgets := widgets[key := controller];
        case Unkeyed =>
          warnings := warnings + [element];
        case Malformed =>
          outcome := Threw(MalformedDataId(element));
      }
    }

    /** The DOMContentLoaded handler: dispatch over the whole document, then
        register the `datagrid:row_added` listener, which an exception thrown
        by the dispatch skips. */
    method OnReady(doc: seq<Element>, matches: (string, nat) -> bool, parse: string -> Option<string>)
      returns (outcome: Outcome)
      modifies this
      ensures Run(Snapshot(), outcome) == RenderEntries(Registry, doc, matches, parse, NotANode, old(Snapshot()))
      ensures rowListening <==> old(rowListening) || outcome.Completed?
    {
      outcome := RenderAllWidgets(Registry, doc, matches, parse, NotANode);
      if outcome.Completed? {
        rowListening := true;
      }
    }

    /** A `datagrid:row_added` event: without the listener nothing runs;
        with it, a dispatch over the event's row, which is the new row's
        element, or anything else (then the whole document). */
    method OnRowAdded(doc: seq<Element>, matches: (string, nat) -> bool, parse: string -> Option<string>, row: Root)
      returns (outcome: Outcome)
      modifies this
      ensures rowListening == old(rowListening)
      ensures !rowListening ==> outcome == Completed && Snapshot() == old(Snapshot())
      ensures rowListening ==> Run(Snapshot(), outcome) == RenderEntries(Registry, doc, matches, parse, row, old(Snapshot()))
    {
      if rowListening {
        outcome := RenderAllWidgets(Registry, doc, matches, parse, row);
      } else {
        outcome := Completed;
      }
    }
  }
}
