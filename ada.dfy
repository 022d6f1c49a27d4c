// The Ada expressions the generator writes into a `Map` function, kept as a
// tree and rendered to text the way generator.py formats them.

module Ada {
  import opened Text

  datatype Expr =
    | MapCall(arg: string)                      // `Map(arg)`
    | Aggregate(parts: seq<(string, Expr)>)     // `( a => e1, b => e2 )`
    | Cast(mark: string, arg: string)           // `Mark (arg)`
    | Plain(text: string)                       // the source expression itself

  function Render(e: Expr): string
    decreases e, 1
  {
    match e
    case MapCall(a) => "Map(" + a + ")"
    case Aggregate(_) => "( " + RenderParts(e, 0) + " )"
    case Cast(m, a) => m + " (" + a + ")"
    case Plain(t) => t
  }

  /** The associations of an aggregate from position `from` on, joined by `, `. */
  function RenderParts(e: Expr, from: nat): string
    requires e.Aggregate? && from <= |e.parts|
    decreases e, 0, |e.parts| - from
  {
    if from == |e.parts| then ""
    else
      var p := e.parts[from];
      assert p in e.parts;
      var r := p.0 + " => " + Render(p.1);
      if from + 1 == |e.parts| then r else r + ", " + RenderParts(e, from + 1)
  }

  /** The declaration both the spec and the body of a `Map` overload start
      with: `function Map (P : Types_From.Src) return Types_To.Dst`. */
  function MapProfile(param: string, src: string, dst: string): string {
    "   function Map (" + param + " : Types_From." + src + ") return Types_To." + dst
  }

  /** The spec line of an overload: its profile and `;`. */
  function MapSpec(param: string, src: string, dst: string): string {
    MapProfile(param, src, dst) + ";\n"
  }
}
