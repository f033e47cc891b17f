/**
 * The tool authorisation middleware: find the first registered tool that
 * belongs to this package and let it decide whether the request may pass.
 */
module Authorize {
  import opened Wrappers
  import opened Http
  import Collections

  /** A class as PHP's `instanceof` sees it: its name and the class it extends, if any. */
  datatype ClassInfo = ClassInfo(name: string, parent: Option<ClassInfo>)

  /** A registered tool, known by its class. */
  datatype Tool = Tool(cls: ClassInfo)

  /** The number of classes on the chain from `c` up to its root class. */
  function Depth(c: ClassInfo): nat
  {
    1 + match c.parent
      case None => 0
      case Some(p) => Depth(p)
  }

  /** The name of the class `k` steps up the chain from `c` (0 is `c` itself). */
  function AncestorName(c: ClassInfo, k: nat): string
    requires k < Depth(c)
  {
    if k == 0 then c.name else AncestorName(c.parent.value, k - 1)
  }

  /** `instanceof` on classes: walk the parent chain looking for `name`. */
  function InstanceOf(c: ClassInfo, name: string): bool
  {
    c.name == name || (c.parent.Some? && InstanceOf(c.parent.value, name))
  }

  /** `name` is reachable from `c` along the parent relation. */
  ghost predicate Reaches(c: ClassInfo, name: string)
  {
    exists k :: 0 <= k < Depth(c) && AncestorName(c, k) == name
  }

  /** The walk succeeds exactly when `name` is reachable from `c` along the parent relation. */
  lemma {:induction false} InstanceOfIsReachable(c: ClassInfo, name: string)
    ensures InstanceOf(c, name) <==> Reaches(c, name)
  {
    var k0 := 0;
    assert 0 <= k0 < Depth(c) && AncestorName(c, k0) == c.name;
    if c.parent.Some? {
      var p := c.parent.value;
      assert Depth(c) == 1 + Depth(p);
      InstanceOfIsReachable(p, name);
      if Reaches(p, name) {
        var k :| 0 <= k < Depth(p) && AncestorName(p, k) == name;
        assert AncestorName(c, k + 1) == name;
      }
      if Reaches(c, name) && c.name != name {
        var k :| 0 <= k < Depth(c) && AncestorName(c, k) == name;
        assert 0 <= k - 1 < Depth(p) && AncestorName(p, k - 1) == name;
      }
    } else {
      assert Depth(c) == 1;
    }
  }

  const NovaRestApiClass: string := "EomPlus\\NovaRestApi\\NovaRestApi"

  /** The response `abort(403)` leads to. */
  const Forbidden: Response := Aborted(403)

  /** `matchesTool`: the tool's class is the package's tool class or extends it. */
  predicate MatchesTool(t: Tool)
    ensures MatchesTool(t) <==> Reaches(t.cls, NovaRestApiClass)
  {
    InstanceOfIsReachable(t.cls, NovaRestApiClass);
    InstanceOf(t.cls, NovaRestApiClass)
  }

  /** The position of `collect(tools)->first(matchesTool)`. */
  function PackageTool(tools: seq<Tool>): (r: Option<nat>)
    ensures r.Some? ==> r.value < |tools| && MatchesTool(tools[r.value])
    ensures r.Some? ==> forall j :: 0 <= j < r.value ==> !MatchesTool(tools[j])
    ensures r.None? <==> forall j :: 0 <= j < |tools| ==> !MatchesTool(tools[j])
  {
    Collections.FirstIndex(tools, MatchesTool)
  }

  /**
   * `handle`: the request passes exactly when a package tool is registered and
   * the first one's `authorize` grants it; otherwise the answer is 403.
   */
  function Handle<Req>(request: Req, tools: seq<Tool>, authorize: (Tool, Req) -> bool): (g: Gate)
    ensures g.Continue? <==>
      exists i :: 0 <= i < |tools| && MatchesTool(tools[i]) && authorize(tools[i], request)
        && forall j :: 0 <= j < i ==> !MatchesTool(tools[j])
    ensures g.Reject? ==> g.response == Forbidden
  {
    match PackageTool(tools)
    case None => Reject(Forbidden)
    case Some(i) => if authorize(tools[i], request) then Continue else Reject(Forbidden)
  }

  /** Without a package tool the request is refused and the next handler is not called. */
  lemma HandleWithoutPackageTool<Req>(request: Req, tools: seq<Tool>, authorize: (Tool, Req) -> bool, next: Response)
    requires forall j :: 0 <= j < |tools| ==> !MatchesTool(tools[j])
    ensures Handle(request, tools, authorize) == Reject(Forbidden)
    ensures Run(Handle(request, tools, authorize), next) == Forbidden
  {
  }

  /** The first package tool's answer is the gate's answer. */
  lemma HandleFollowsFirstTool<Req>(request: Req, tools: seq<Tool>, authorize: (Tool, Req) -> bool, next: Response)
    requires PackageTool(tools).Some?
    ensures var t := tools[PackageTool(tools).value];
      Run(Handle(request, tools, authorize), next) == if authorize(t, request) then next else Forbidden
  {
  }

  /** Only the first package tool is consulted: oracles that agree on it give the same answer. */
  lemma HandleConsultsOnlyFirstTool<Req>(request: Req, tools: seq<Tool>, a1: (Tool, Req) -> bool, a2: (Tool, Req) -> bool)
    requires PackageTool(tools).Some?
    requires a1(tools[PackageTool(tools).value], request) == a2(tools[PackageTool(tools).value], request)
    ensures Handle(request, tools, a1) == Handle(request, tools, a2)
  {
  }

  /** Tools registered after the first package tool, matching or not, have no effect. */
  lemma HandleIgnoresLaterTools<Req>(request: Req, tools: seq<Tool>, later: seq<Tool>, authorize: (Tool, Req) -> bool)
    requires PackageTool(tools).Some?
    ensures Handle(request, tools + later, authorize) == Handle(request, tools, authorize)
  {
    Collections.FirstIndexIgnoresSuffix(tools, later, MatchesTool);
  }
}
