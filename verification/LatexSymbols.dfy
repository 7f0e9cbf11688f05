/** The commands the viewer's LaTeX converter knows by name. */
module LatexSymbols {
  import opened Wrappers
  import opened Markup

  /** `GREEK`. */
  function Greek(name: string): (r: Option<char>)
    ensures r.Some? ==> !IsSpecial(r.value)
  {
    match name
    case "alpha" => Some('α') case "beta" => Some('β') case "gamma" => Some('γ')
    case "delta" => Some('δ') case "epsilon" => Some('ε') case "varepsilon" => Some('ε')
    case "zeta" => Some('ζ') case "eta" => Some('η') case "theta" => Some('θ')
    case "vartheta" => Some('ϑ') case "iota" => Some('ι') case "kappa" => Some('κ')
    case "lambda" => Some('λ') case "mu" => Some('μ') case "nu" => Some('ν')
    case "xi" => Some('ξ') case "pi" => Some('π') case "rho" => Some('ρ')
    case "sigma" => Some('σ') case "tau" => Some('τ') case "upsilon" => Some('υ')
    case "phi" => Some('φ') case "varphi" => Some('φ') case "chi" => Some('χ')
    case "psi" => Some('ψ') case "omega" => Some('ω') case "Gamma" => Some('Γ')
    case "Delta" => Some('Δ') case "Theta" => Some('Θ') case "Lambda" => Some('Λ')
    case "Xi" => Some('Ξ') case "Pi" => Some('Π') case "Sigma" => Some('Σ')
    case "Phi" => Some('Φ') case "Psi" => Some('Ψ') case "Omega" => Some('Ω')
    case _ => None
  }

  /** `OPS`. */
  function Operation(name: string): (r: Option<char>)
    ensures r.Some? ==> !IsSpecial(r.value)
  {
    match name
    case "cdot" => Some('⋅') case "times" => Some('×') case "div" => Some('÷')
    case "pm" => Some('±') case "mp" => Some('∓') case "le" => Some('≤')
    case "leq" => Some('≤') case "ge" => Some('≥') case "geq" => Some('≥')
    case "neq" => Some('≠') case "ne" => Some('≠') case "approx" => Some('≈')
    case "equiv" => Some('≡') case "int" => Some('∫') case "sum" => Some('∑')
    case "prod" => Some('∏') case "infty" => Some('∞') case "partial" => Some('∂')
    case "nabla" => Some('∇') case "rightarrow" => Some('→') case "to" => Some('→')
    case "leftarrow" => Some('←') case "Rightarrow" => Some('⇒') case "leftrightarrow" => Some('↔')
    case "in" => Some('∈') case "notin" => Some('∉') case "subset" => Some('⊂')
    case "subseteq" => Some('⊆') case "cup" => Some('∪') case "cap" => Some('∩')
    case "forall" => Some('∀') case "exists" => Some('∃') case "langle" => Some('⟨')
    case "rangle" => Some('⟩') case "ldots" => Some('…') case "dots" => Some('…')
    case "cdots" => Some('⋯') case "mapsto" => Some('↦') case "propto" => Some('∝')
    case "sim" => Some('∼') case "star" => Some('⋆') case "ast" => Some('∗')
    case "circ" => Some('∘')
    case _ => None
  }

  const TRIGONOMETRIC: seq<string> := ["sin", "cos", "tan", "cot", "sec", "csc"]

  const ELEMENTARY: seq<string> := ["sinh", "cosh", "tanh", "log", "ln", "exp"]

  const ALGEBRAIC: seq<string> := ["det", "dim", "ker", "deg", "gcd"]

  const EXTREMAL: seq<string> := ["lim", "max", "min", "arg", "sup", "inf"]

  /** `FUNCS`, in the order of the source. */
  const FUNCS: seq<string> := TRIGONOMETRIC + ELEMENTARY + ALGEBRAIC + EXTREMAL

  /** The commands of one punctuation character, and the blank. */
  predicate IsPunctuation(name: string) {
    name == "{" || name == "}" || name == "," || name == ";" || name == " "
  }

  /** The commands that build structure rather than stand for a symbol. */
  predicate IsStructure(name: string) {
    name == "frac" || name == "sqrt" || name == "left" || name == "right"
  }

  predicate Supported(name: string) {
    || IsStructure(name) || Greek(name).Some? || Operation(name).Some? || name in FUNCS
    || IsPunctuation(name)
  }

  /**
   * The built-in function a property lookup finds when the table itself has no such name: the
   * fence rule reads the operator table with a plain lookup, which also reaches these.
   */
  function InheritedFunction(name: string): string {
    match name
    case "constructor" => "Object"
    case "toString" => "toString"
    case "toLocaleString" => "toLocaleString"
    case "valueOf" => "valueOf"
    case "hasOwnProperty" => "hasOwnProperty"
    case "isPrototypeOf" => "isPrototypeOf"
    case "propertyIsEnumerable" => "propertyIsEnumerable"
    case _ => ""
  }

  /** What `\left` or `\right` shows for the command after it. */
  function FenceText(name: string): string {
    if Operation(name).Some? then [Operation(name).value]
    else if InheritedFunction(name) != "" then "function " + InheritedFunction(name) + "() { [native code] }"
    else ""
  }

  predicate AllPlain(names: seq<string>) {
    forall k :: 0 <= k < |names| ==> IsPlain(names[k])
  }

  lemma TrigonometricArePlain()
    ensures AllPlain(TRIGONOMETRIC)
  {}

  lemma ElementaryArePlain()
    ensures AllPlain(ELEMENTARY)
  {}

  lemma AlgebraicArePlain()
    ensures AllPlain(ALGEBRAIC)
  {}

  lemma ExtremalArePlain()
    ensures AllPlain(EXTREMAL)
  {}

  lemma FunctionNamesArePlain(name: string)
    requires name in FUNCS
    ensures IsPlain(name)
  {
    hide IsPlain, TRIGONOMETRIC, ELEMENTARY, ALGEBRAIC, EXTREMAL;
    TrigonometricArePlain();
    ElementaryArePlain();
    AlgebraicArePlain();
    ExtremalArePlain();
  }
}
