/** Composition of Slurm feature constraints (internal/utils/slurmconstraint/slurmconstraint.go). */
module Constraint {
  import opened Ordering

  // --- the scanner ---

  datatype Shape = Shape(topLevelOr: bool, hasParens: bool, hasBrackets: bool, countOutsideBrackets: bool)

  datatype Scan = Scan(shape: Shape, paren: int, bracket: int)

  const START := Scan(Shape(false, false, false, false), 0, 0)

  /** One character of analyze. */
  function Step(st: Scan, c: char): Result<Scan, string> {
    match c
    case '(' =>
      if st.paren > 0 then Err("nested parentheses")
      else Ok(st.(shape := st.shape.(hasParens := true), paren := st.paren + 1))
    case ')' => if st.paren <= 0 then Err("unbalanced parentheses") else Ok(st.(paren := st.paren - 1))
    case '[' =>
      if st.paren > 0 then Err("brackets inside parentheses")
      else if st.shape.hasBrackets then Err("only one set of brackets")
      else Ok(st.(shape := st.shape.(hasBrackets := true), bracket := st.bracket + 1))
    case ']' => if st.bracket <= 0 then Err("unbalanced brackets") else Ok(st.(bracket := st.bracket - 1))
    case '|' => Ok(if st.paren == 0 && st.bracket == 0 then st.(shape := st.shape.(topLevelOr := true)) else st)
    case '*' => Ok(if st.bracket == 0 then st.(shape := st.shape.(countOutsideBrackets := true)) else st)
    case _ => Ok(st)
  }

  function Run(st: Scan, s: string): Result<Scan, string>
    decreases |s|
  {
    if s == [] then Ok(st)
    else
      match Step(st, s[0])
      case Err(e) => Err(e)
      case Ok(next) => Run(next, s[1..])
  }

  /** What the characters of a constraint say about its shape. */
  function Analysis(s: string): Result<Shape, string> {
    match Run(START, s)
    case Err(e) => Err(e)
    case Ok(st) => if st.paren != 0 then Err("unbalanced parentheses")
    else if st.bracket != 0 then Err("unbalanced brackets") else Ok(st.shape)
  }

  method Analyze(s: string) returns (r: Result<Shape, string>)
    ensures r == Analysis(s)
  {
    var topLevelOr, hasParens, hasBrackets, countOutsideBrackets := false, false, false, false;
    var paren, bracket := 0, 0;
    for i := 0 to |s|
      invariant Run(START, s) ==
                  Run(Scan(Shape(topLevelOr, hasParens, hasBrackets, countOutsideBrackets), paren, bracket), s[i..])
      invariant 0 <= paren <= 1 && 0 <= bracket
    {
      match s[i] {
        case '(' =>
          hasParens := true;
          paren := paren + 1;
          if paren > 1 {
            return Err("nested parentheses");
          }
        case ')' =>
          paren := paren - 1;
          if paren < 0 {
            return Err("unbalanced parentheses");
          }
        case '[' =>
          if paren > 0 {
            return Err("brackets inside parentheses");
          }
          if hasBrackets {
            return Err("only one set of brackets");
          }
          hasBrackets := true;
          bracket := bracket + 1;
        case ']' =>
          bracket := bracket - 1;
          if bracket < 0 {
            return Err("unbalanced brackets");
          }
        case '|' =>
          if paren == 0 && bracket == 0 {
            topLevelOr := true;
          }
        case '*' =>
          if bracket == 0 {
            countOutsideBrackets := true;
          }
        case _ =>
      }
    }
    if paren != 0 {
      return Err("unbalanced parentheses");
    }
    if bracket != 0 {
      return Err("unbalanced brackets");
    }
    return Ok(Shape(topLevelOr, hasParens, hasBrackets, countOutsideBrackets));
  }

  lemma {:induction false} RunConcat(st: Scan, a: string, b: string)
    ensures Run(st, a + b) == match Run(st, a) { case Err(e) => Err(e) case Ok(mid) => Run(mid, b) }
    decreases |a|
  {
    if a == [] {
      assert a + b == b;
    } else {
      assert (a + b)[1..] == a[1..] + b;
      if Step(st, a[0]).Ok? {
        RunConcat(Step(st, a[0]).value, a[1..], b);
      }
    }
  }

  // --- Compose ---

  /** Unicode's White_Space characters. */
  predicate IsSpace(c: char) {
    || 9 <= c as int <= 13 || c == ' '
    || c as int in {0x85, 0xa0, 0x1680, 0x2028, 0x2029, 0x202f, 0x205f, 0x3000} || 0x2000 <= c as int <= 0x200a
  }

  function TrimLeft(s: string): string {
    if s != [] && IsSpace(s[0]) then TrimLeft(s[1..]) else s
  }

  function TrimRight(s: string): string {
    if s != [] && IsSpace(s[|s| - 1]) then TrimRight(s[..|s| - 1]) else s
  }

  function TrimSpace(s: string): string {
    TrimRight(TrimLeft(s))
  }

  function Compose(required: string, constraints: string): Result<string, string> {
    var s := TrimSpace(constraints);
    if s == "" || s == required then Ok(required)
    else
      match Analysis(s)
      case Err(e) => Err(e)
      case Ok(shape) =>
        if shape.countOutsideBrackets then Err("a feature count cannot be combined")
        else if !shape.topLevelOr then Ok(required + "&" + s)
        else if shape.hasParens || shape.hasBrackets then Err("an OR outside parentheses cannot be combined")
        else Ok(required + "&(" + s + ")")
  }

  // --- expressions ---

  datatype Op = And | Or

  /** Features joined by operators, as they may stand inside parentheses. */
  datatype Flat = Name(name: string) | Join(init: Flat, op: Op, name: string)

  datatype Term = Feature(name: string) | Counted(name: string,
                          count: string) | Paren(inner: Flat) | Bracket(text: string)

  /** A constraint: terms joined by operators, evaluated from left to right. */
  datatype Expr = Only(term: Term) | Chain(init: Expr, op: Op, term: Term)

  predicate Special(c: char) {
    c in {'(', ')', '[', ']', '&', '|', '*'}
  }

  predicate Plain(s: string) {
    s != [] && forall i :: 0 <= i < |s| ==> !Special(s[i]) && !IsSpace(s[i])
  }

  predicate FlatOk(f: Flat) {
    Plain(f.name) && (f.Join? ==> FlatOk(f.init))
  }

  /** The text of a bracket group: no brackets, and parentheses that match and do not nest. */
  predicate Balanced(text: string, inside: bool) {
    if text == [] then !inside
    else if text[0] == '(' then !inside && Balanced(text[1..], true)
    else if text[0] == ')' then inside && Balanced(text[1..], false)
    else text[0] != '[' && text[0] != ']' && Balanced(text[1..], inside)
  }

  predicate TermOk(t: Term) {
    match t
    case Feature(name) => Plain(name)
    case Counted(name, count) => Plain(name) && Plain(count)
    case Paren(inner) => FlatOk(inner)
    case Bracket(text) => Balanced(text, false)
  }

  function Brackets(e: Expr): nat {
    (if e.Chain? then Brackets(e.init) else 0) + if e.term.Bracket? then 1 else 0
  }

  predicate TermsOk(e: Expr) {
    TermOk(e.term) && (e.Chain? ==> TermsOk(e.init))
  }

  predicate HasCount(e: Expr) {
    e.term.Counted? || (e.Chain? && HasCount(e.init))
  }

  /** Slurm's rules: one bracket group at most, and a count outside it only for a sole feature. */
  predicate WellFormed(e: Expr) {
    TermsOk(e) && Brackets(e) <= 1 && (HasCount(e) ==> e.Only?)
  }

  function OpText(op: Op): string { if op.And? then "&" else "|" }

  function FlatText(f: Flat): string {
    match f
    case Name(name) => name
    case Join(init, op, name) => FlatText(init) + OpText(op) + name
  }

  function TermText(t: Term): string {
    match t
    case Feature(name) => name
    case Counted(name, count) => name + "*" + count
    case Paren(inner) => "(" + FlatText(inner) + ")"
    case Bracket(text) => "[" + text + "]"
  }

  function Text(e: Expr): string {
    match e
    case Only(t) => TermText(t)
    case Chain(init, op, t) => Text(init) + OpText(op) + TermText(t)
  }

  function Apply(op: Op, a: bool, b: bool): bool { if op.And? then a && b else a || b }

  function FlatValue(f: Flat, has: string -> bool): bool {
    match f
    case Name(name) => has(name)
    case Join(init, op, name) => Apply(op, FlatValue(init, has), has(name))
  }

  /** A bracket group or count means whatever Slurm makes of its text. */
  function TermValue(t: Term, has: string -> bool, group: string -> bool): bool {
    match t
    case Feature(name) => has(name)
    case Counted(_, _) => group(TermText(t))
    case Paren(inner) => FlatValue(inner, has)
    case Bracket(text) => group(text)
  }

  function Value(e: Expr, has: string -> bool, group: string -> bool): bool {
    match e
    case Only(t) => TermValue(t, has, group)
    case Chain(init, op, t) => Apply(op, Value(init, has, group), TermValue(t, has, group))
  }

  predicate TopOr(e: Expr) {
    e.Chain? && (e.op.Or? || TopOr(e.init))
  }

  predicate Grouped(e: Expr) {
    e.term.Paren? || e.term.Bracket? || (e.Chain? && Grouped(e.init))
  }

  predicate ParensIn(e: Expr) {
    e.term.Paren? || (e.term.Bracket? && '(' in e.term.text) || (e.Chain? && ParensIn(e.init))
  }

  function ShapeOf(e: Expr): Shape {
    Shape(TopOr(e), ParensIn(e), Brackets(e) > 0, HasCount(e))
  }

  // --- the scanner sees the grammar ---

  predicate Unspecial(s: string) {
    forall i :: 0 <= i < |s| ==> !Special(s[i])
  }

  lemma {:induction false} RunPlain(st: Scan, s: string)
    requires Unspecial(s)
    ensures Run(st, s) == Ok(st)
    decreases |s|
  {
    if s != [] {
      RunPlain(st, s[1..]);
    }
  }

  lemma RunOne(st: Scan, c: char)
    ensures Run(st, [c]) == Step(st, c)
  {
    if Step(st, c).Ok? {
      assert [c][1..] == [];
    }
  }

  lemma RunOp(st: Scan, op: Op)
    ensures Run(st, OpText(op)) ==
              Ok(if op.Or? && st.paren == 0 && st.bracket == 0 then st.(shape := st.shape.(topLevelOr := true)) else st)
  {
    RunOne(st, OpText(op)[0]);
  }

  lemma {:induction false} RunFlat(st: Scan, f: Flat)
    requires FlatOk(f) && st.paren == 1
    ensures Run(st, FlatText(f)) == Ok(st)
  {
    RunPlain(st, f.name);
    if f.Join? {
      RunFlat(st, f.init);
      RunConcat(st, FlatText(f.init) + OpText(f.op), f.name);
      RunConcat(st, FlatText(f.init), OpText(f.op));
      RunOp(st, f.op);
    }
  }

  lemma {:induction false} RunBalanced(st: Scan, text: string, inside: bool)
    requires Balanced(text, inside) && st.bracket == 1 && st.paren == if inside then 1 else 0
    ensures Run(st, text) == Ok(st.(paren := 0, shape := st.shape.(hasParens := st.shape.hasParens || '(' in text)))
    decreases |text|
  {
    if text != [] {
      var next := Step(st, text[0]).value;
      assert text == [text[0]] + text[1..];
      RunBalanced(next, text[1..], if text[0] == '(' then true else if text[0] == ')' then false else inside);
    }
  }

  function WithTerm(shape: Shape, t: Term): Shape {
    match t
    case Feature(_) => shape
    case Counted(_, _) => shape.(countOutsideBrackets := true)
    case Paren(_) => shape.(hasParens := true)
    case Bracket(text) => shape.(hasBrackets := true, hasParens := shape.hasParens || '(' in text)
  }

  lemma RunTerm(shape: Shape, t: Term)
    requires TermOk(t) && (t.Bracket? ==> !shape.hasBrackets)
    ensures Run(Scan(shape, 0, 0), TermText(t)) == Ok(Scan(WithTerm(shape, t), 0, 0))
  {
    var st := Scan(shape, 0, 0);
    match t {
      case Feature(name) => RunPlain(st, name);
      case Counted(name, count) => {
        var counted := st.(shape := shape.(countOutsideBrackets := true));
        RunConcat(st, name + "*", count);
        RunConcat(st, name, "*");
        RunPlain(st, name);
        RunOne(st, '*');
        RunPlain(counted, count);
      }
      case Paren(inner) => {
        var within := Scan(shape.(hasParens := true), 1, 0);
        RunConcat(st, "(" + FlatText(inner), ")");
        RunConcat(st, "(", FlatText(inner));
        RunOne(st, '(');
        RunFlat(within, inner);
        RunOne(within, ')');
      }
      case Bracket(text) => {
        var within := Scan(shape.(hasBrackets := true), 0, 1);
        RunConcat(st, "[" + text, "]");
        RunConcat(st, "[", text);
        RunOne(st, '[');
        RunBalanced(within, text, false);
        RunOne(within.(shape := within.shape.(hasParens := shape.hasParens || '(' in text)), ']');
      }
    }
  }

  /** The shape analyze reads off the characters of a constraint is the shape of the expression. */
  lemma {:induction false} ScanSeesShape(e: Expr)
    requires TermsOk(e) && Brackets(e) <= 1
    ensures Run(START, Text(e)) == Ok(Scan(ShapeOf(e), 0, 0)) && Analysis(Text(e)) == Ok(ShapeOf(e))
  {
    if e.Only? {
      RunTerm(START.shape, e.term);
    } else {
      ScanSeesShape(e.init);
      var shape := ShapeOf(e.init).(topLevelOr := TopOr(e.init) || e.op.Or?);
      RunConcat(START, Text(e.init) + OpText(e.op), TermText(e.term));
      RunConcat(START, Text(e.init), OpText(e.op));
      RunOp(Scan(ShapeOf(e.init), 0, 0), e.op);
      RunTerm(shape, e.term);
    }
  }

  // --- Compose preserves meaning ---

  predicate Tight(s: string) {
    s != [] && !IsSpace(s[0]) && !IsSpace(s[|s| - 1])
  }

  lemma TightStays(s: string)
    requires Tight(s)
    ensures TrimSpace(s) == s
  {
  }

  lemma TermTight(t: Term)
    requires TermOk(t)
    ensures Tight(TermText(t))
  {
  }

  lemma {:induction false} TextTight(e: Expr)
    requires TermsOk(e)
    ensures Tight(Text(e))
  {
    TermTight(e.term);
    if e.Chain? {
      TextTight(e.init);
    }
  }

  function Prepend(required: string, e: Expr): Expr {
    match e
    case Only(t) => Chain(Only(Feature(required)), And, t)
    case Chain(init, op, t) => Chain(Prepend(required, init), op, t)
  }

  lemma {:induction false} PrependMeaning(required: string, e: Expr)
    requires Plain(required) && WellFormed(e) && !HasCount(e) && !TopOr(e)
    ensures var p := Prepend(required, e); WellFormed(p) && !HasCount(p) && !TopOr(p) && Brackets(p) == Brackets(e)
    ensures Text(Prepend(required, e)) == required + "&" + Text(e)
    ensures forall has, group :: Value(Prepend(required, e), has, group) == (has(required) && Value(e, has, group))
  {
    var f := Only(Feature(required));
    assert !HasCount(f) && !TopOr(f) && TermsOk(f) && Brackets(f) == 0 && Text(f) == required;
    if e.Chain? {
      PrependMeaning(required, e.init);
      assert required + "&" + Text(e) == (required + "&" + Text(e.init)) + OpText(e.op) + TermText(e.term);
    }
  }

  function Flatten(e: Expr): Flat
    requires TermsOk(e) && !Grouped(e) && !HasCount(e)
  {
    match e
    case Only(t) => Name(t.name)
    case Chain(init, op, t) => Join(Flatten(init), op, t.name)
  }

  lemma {:induction false} FlattenMeaning(e: Expr)
    requires TermsOk(e) && !Grouped(e) && !HasCount(e)
    ensures FlatOk(Flatten(e)) && FlatText(Flatten(e)) == Text(e)
    ensures forall has, group :: FlatValue(Flatten(e), has) == Value(e, has, group)
  {
    if e.Chain? {
      FlattenMeaning(e.init);
    }
  }

  /** Which well-formed constraints can take one more required feature. */
  predicate Composable(e: Expr) {
    !HasCount(e) && !(TopOr(e) && Grouped(e))
  }

  /** The expression Compose prints. */
  function Combined(required: string, e: Expr): Expr
    requires WellFormed(e) && Composable(e)
  {
    if e == Only(Feature(required)) then e
    else if !TopOr(e) then Prepend(required, e)
    else Chain(Only(Feature(required)), And, Paren(Flatten(e)))
  }

  lemma {:induction false} GroupedShape(e: Expr)
    ensures Grouped(e) <==> ParensIn(e) || Brackets(e) > 0
  {
    if e.Chain? {
      GroupedShape(e.init);
    }
  }

  lemma SpecialText(e: Expr)
    requires TermsOk(e) && !(e.Only? && e.term.Feature?)
    ensures !Unspecial(Text(e))
  {
    var s := Text(e);
    if e.Chain? {
      assert Special(s[|Text(e.init)|]);
    } else if e.term.Counted? {
      assert Special(s[|e.term.name|]);
    } else {
      assert Special(s[0]);
    }
  }

  lemma ParenMeaning(required: string, e: Expr)
    requires Plain(required) && WellFormed(e) && !HasCount(e) && !Grouped(e)
    ensures var c := Chain(Only(Feature(required)), And, Paren(Flatten(e)));
            WellFormed(c) && Composable(c) && !TopOr(c) && Text(c) == required + "&(" + Text(e) + ")"
    ensures var c := Chain(Only(Feature(required)), And, Paren(Flatten(e)));
            forall has, group :: Value(c, has, group) == (has(required) && Value(e, has, group))
  {
    FlattenMeaning(e);
    var c := Chain(Only(Feature(required)), And, Paren(Flatten(e)));
    assert Brackets(c.init) == 0 && !HasCount(c.init) && !TopOr(c.init) && TermsOk(c.init);
    assert required + "&(" + Text(e) + ")" == required + "&" + ("(" + Text(e) + ")");
    forall has, group ensures Value(c, has, group) == (has(required) && Value(e, has, group)) {
      assert Value(c.init, has, group) == has(required);
    }
  }

  /** The code points with Unicode's White_Space property. */
  const WHITE_SPACE: set<int> :=
    {0x9, 0xa, 0xb, 0xc, 0xd, 0x20, 0x85, 0xa0, 0x1680, 0x2000, 0x2001, 0x2002, 0x2003, 0x2004, 0x2005, 0x2006, 0x2007,
     0x2008, 0x2009, 0x200a, 0x2028, 0x2029, 0x202f, 0x205f, 0x3000}

  ghost predicate Blank(s: string) {
    forall i :: 0 <= i < |s| ==> s[i] as int in WHITE_SPACE
  }

  lemma SpaceMeans(c: char)
    ensures IsSpace(c) <==> c as int in WHITE_SPACE
  {
  }

  lemma {:induction false} LeftPadding(left: string, s: string)
    requires Blank(left)
    ensures TrimLeft(left + s) == TrimLeft(s)
  {
    if left == [] {
      assert left + s == s;
    } else {
      SpaceMeans(left[0]);
      assert (left + s)[1..] == left[1..] + s;
      LeftPadding(left[1..], s);
    }
  }

  lemma {:induction false} RightPadding(s: string, right: string)
    requires Blank(right)
    ensures TrimRight(s + right) == TrimRight(s)
  {
    if right == [] {
      assert s + right == s;
    } else {
      SpaceMeans(right[|right| - 1]);
      assert (s + right)[..|s + right| - 1] == s + right[..|right| - 1];
      RightPadding(s, right[..|right| - 1]);
    }
  }

  /** Surrounding white space does not matter: it is cut off and nothing else is, and a constraint of nothing but white
      space leaves the required feature alone. */
  lemma PaddingIgnored(required: string, left: string, s: string, right: string)
    requires Blank(left) && Blank(right)
    requires s == "" || (s[0] as int !in WHITE_SPACE && s[|s| - 1] as int !in WHITE_SPACE)
    ensures TrimSpace(left + s + right) == s
    ensures Compose(required, left + s + right) == Compose(required, s)
    ensures s == "" ==> Compose(required, left + s + right) == Ok(required)
  {
    assert left + s + right == left + (s + right);
    LeftPadding(left, s + right);
    if s == "" {
      assert s + right == right && right + "" == right;
      LeftPadding(right, "");
    } else {
      SpaceMeans(s[0]);
      SpaceMeans(s[|s| - 1]);
      assert TrimLeft(s + right) == s + right;
      RightPadding(s, right);
      TightStays(s);
    }
  }

  /** Compose accepts exactly the composable constraints, and then prints an expression, again within Slurm's grouping
      rules, that holds where the required feature is present and the constraint held. */
  lemma ComposePreservesMeaning(required: string, e: Expr)
    requires Plain(required) && TermsOk(e) && Brackets(e) <= 1 && (HasCount(e) ==> e.Only?)
    ensures Compose(required, Text(e)).Ok? <==> Composable(e)
    ensures Composable(e) ==> var c := Combined(required, e);
              && TermsOk(c) && Brackets(c) <= 1 && !HasCount(c) && Composable(c) && !TopOr(c)
              && Compose(required, Text(e)) == Ok(Text(c))
    ensures Composable(e) ==>
              forall has, group :: Value(Combined(required, e), has, group) == (has(required) && Value(e, has, group))
  {
    TextTight(e);
    TightStays(Text(e));
    ScanSeesShape(e);
    GroupedShape(e);
    if !(e.Only? && e.term.Feature?) {
      SpecialText(e);
    }
    if e != Only(Feature(required)) && Composable(e) {
      if !TopOr(e) {
        PrependMeaning(required, e);
      } else {
        ParenMeaning(required, e);
      }
    }
  }

  /** What Compose prints is accepted again, and means the same. */
  lemma ComposeAgain(required: string, e: Expr)
    requires Plain(required) && WellFormed(e) && Composable(e)
    ensures WellFormed(Combined(required, e)) && Composable(Combined(required, e))
    ensures var c := Combined(required, e);
            Compose(required, Text(e)) == Ok(Text(c)) && Compose(required, Text(c)) == Ok(Text(Combined(required, c)))
    ensures var c := Combined(required, e); forall has, group ::
              Value(Combined(required, c), has, group) == Value(c, has, group)
  {
    ComposePreservesMeaning(required, e);
    ComposePreservesMeaning(required, Combined(required, e));
  }

  /** Whatever string was composed, well formed or not, the result is accepted again. */
  lemma AcceptedAgain(required: string, constraints: string)
    requires Plain(required) && Compose(required, constraints).Ok?
    ensures Compose(required, Compose(required, constraints).value).Ok?
  {
    var s, r := TrimSpace(constraints), Compose(required, constraints).value;
    if r == required {
      TightStays(required);
    } else {
      TrimmedTight(constraints);
      TightStays(r);
      ShapeOfComposed(required, s, r);
    }
  }

  lemma {:induction false} TrimmedTight(s: string)
    ensures TrimSpace(s) == "" || Tight(TrimSpace(s))
  {
    LeftTight(s);
    RightTight(TrimLeft(s));
  }

  lemma {:induction false} LeftTight(s: string)
    ensures TrimLeft(s) == "" || !IsSpace(TrimLeft(s)[0])
  {
    if s != [] && IsSpace(s[0]) { LeftTight(s[1..]); }
  }

  lemma {:induction false} RightTight(s: string)
    ensures TrimRight(s) == "" || (!IsSpace(TrimRight(s)[|TrimRight(s)| - 1]) && TrimRight(s)[0] == s[0])
  {
    if s != [] && IsSpace(s[|s| - 1]) { RightTight(s[..|s| - 1]); }
  }

  lemma ShapeOfComposed(required: string, s: string, r: string)
    requires Plain(required) && Analysis(s).Ok? && !Analysis(s).value.countOutsideBrackets
    requires (!Analysis(s).value.topLevelOr && r == required + "&" + s)
             || (!Analysis(s).value.hasParens && !Analysis(s).value.hasBrackets && r == required + "&(" + s + ")")
    ensures Analysis(r).Ok? && !Analysis(r).value.countOutsideBrackets && !Analysis(r).value.topLevelOr
  {
    RunPlain(START, required);
    RunOne(START, '&');
    RunConcat(START, required, "&");
    if r == required + "&" + s {
      RunConcat(START, required + "&", s);
    } else {
      var within := Scan(START.shape.(hasParens := true), 1, 0);
      RunOne(START, '(');
      RunConcat(START, required + "&", "(");
      assert r == (required + "&" + "(") + s + ")";
      RunConcat(START, required + "&" + "(", s);
      RunInside(START, within, s);
      RunConcat(START, required + "&" + "(" + s, ")");
      RunOne(within, ')');
    }
  }

  /** Text without grouping characters leaves no trace inside parentheses. */
  lemma {:induction false} RunInside(st: Scan, within: Scan, s: string)
    requires st.paren == 0 && st.bracket == 0 && within.paren == 1 && within.bracket == 0 && Run(st, s).Ok?
    requires var end := Run(st, s).value;
             !end.shape.hasParens && !end.shape.hasBrackets && !end.shape.countOutsideBrackets
    ensures Run(within, s) == Ok(within)
    decreases |s|
  {
    if s != [] {
      Kept(Step(st, s[0]).value, s[1..]);
      RunInside(Step(st, s[0]).value, within, s[1..]);
    }
  }

  /** Once seen, a feature of the shape stays. */
  lemma {:induction false} Kept(st: Scan, s: string)
    requires Run(st, s).Ok?
    ensures var end := Run(st, s).value.shape;
            (st.shape.hasParens ==> end.hasParens) && (st.shape.hasBrackets ==> end.hasBrackets)
            && (st.shape.countOutsideBrackets ==> end.countOutsideBrackets)
    decreases |s|
  {
    if s != [] { Kept(Step(st, s[0]).value, s[1..]); }
  }

  // --- a constraint has one reading ---

  lemma NoLonger(x: string, a: string, y: string, b: string, stop: char -> bool)
    requires x + a == y + b && (forall i :: 0 <= i < |a| ==> !stop(a[i])) && (y == [] || stop(y[|y| - 1]))
    ensures |y| <= |x|
  {
    var s := x + a;
    assert forall k :: |x| <= k < |s| ==> s[k] == a[k - |x|];
    assert y != [] ==> (y + b)[|y| - 1] == y[|y| - 1];
  }

  /** A text ends in only one way in a part free of stop characters. */
  lemma SplitLast(x: string, a: string, y: string, b: string, stop: char -> bool)
    requires x + a == y + b
    requires (forall i :: 0 <= i < |a| ==> !stop(a[i])) && (forall i :: 0 <= i < |b| ==> !stop(b[i]))
    requires (x == [] || stop(x[|x| - 1])) && (y == [] || stop(y[|y| - 1]))
    ensures x == y && a == b
  {
    NoLonger(x, a, y, b, stop);
    NoLonger(y, b, x, a, stop);
    assert x == (x + a)[..|x|] && y == (y + b)[..|y|];
    assert a == (x + a)[|x|..] && b == (y + b)[|y|..];
  }

  predicate IsOp(c: char) { c == '&' || c == '|' }

  lemma {:induction false} FlatOneReading(a: Flat, b: Flat)
    requires FlatOk(a) && FlatOk(b) && FlatText(a) == FlatText(b)
    ensures a == b
  {
    var x := if a.Join? then FlatText(a.init) + OpText(a.op) else "";
    var y := if b.Join? then FlatText(b.init) + OpText(b.op) else "";
    SplitLast(x, a.name, y, b.name, IsOp);
    if a.Join? && b.Join? {
      assert x[..|x| - 1] == FlatText(a.init) && y[..|y| - 1] == FlatText(b.init);
      FlatOneReading(a.init, b.init);
    }
  }

  predicate Separator(c: char) { Special(c) && c != '*' }

  lemma {:induction false} FlatFree(f: Flat)
    requires FlatOk(f)
    ensures forall i :: 0 <= i < |FlatText(f)| ==> FlatText(f)[i] !in {'(', ')', '[', ']', '*'}
  {
    if f.Join? { FlatFree(f.init); }
  }

  lemma {:induction false} BalancedFree(text: string, inside: bool)
    requires Balanced(text, inside)
    ensures forall i :: 0 <= i < |text| ==> text[i] != '[' && text[i] != ']'
  {
    if text != [] {
      BalancedFree(text[1..], if text[0] == '(' then true else if text[0] == ')' then false else inside);
    }
  }

  function Before(e: Expr): string {
    if e.Chain? then Text(e.init) + OpText(e.op) else ""
  }

  /** How a term ends tells what it is. */
  lemma LastChar(t: Term)
    requires TermOk(t)
    ensures TermText(t) != ""
    ensures var c := TermText(t)[|TermText(t)| - 1]; (c == ')' <==> t.Paren?) && (c == ']' <==> t.Bracket?)
  {
  }

  lemma CountedOneReading(s: Term, t: Term)
    requires (s.Feature? || s.Counted?) && (t.Feature? || t.Counted?) && TermOk(s) && TermOk(t)
             && TermText(s) == TermText(t)
    ensures s == t
  {
    var x := if s.Counted? then s.name + "*" else "";
    var y := if t.Counted? then t.name + "*" else "";
    SplitLast(x, if s.Counted? then s.count else s.name, y, if t.Counted? then t.count else t.name, c => c == '*');
    if s.Counted? && t.Counted? {
      assert x[..|x| - 1] == s.name && y[..|y| - 1] == t.name;
    }
  }

  lemma DropLast(x: string, c: char, y: string, d: char)
    requires x + [c] == y + [d]
    ensures x == y && c == d
  {
    var s := x + [c];
    assert |x| == |y| && x == s[..|x|] && y == s[..|y|];
    assert s[|x|] == c && s[|y|] == d;
  }

  lemma Enclosed(x: string, a: string, y: string, b: string, left: char, right: char)
    requires x + ([left] + a + [right]) == y + ([left] + b + [right]) && left != right
    requires (forall i :: 0 <= i < |a| ==> a[i] != left) && (forall i :: 0 <= i < |b| ==> b[i] != left)
    ensures x == y && a == b
  {
    assert x + ([left] + a + [right]) == (x + [left]) + (a + [right]);
    assert y + ([left] + b + [right]) == (y + [left]) + (b + [right]);
    SplitLast(x + [left], a + [right], y + [left], b + [right], c => c == left);
    DropLast(x, left, y, left);
    DropLast(a, right, b, right);
  }

  lemma SameKind(x: string, s: Term, y: string, t: Term)
    requires TermOk(s) && TermOk(t) && x + TermText(s) == y + TermText(t)
    ensures s.Paren? == t.Paren? && s.Bracket? == t.Bracket?
  {
    LastChar(s);
    LastChar(t);
    var p, q := TermText(s), TermText(t);
    DropLast(x + p[..|p| - 1], p[|p| - 1], y + q[..|q| - 1], q[|q| - 1]) by {
      assert x + p == (x + p[..|p| - 1]) + [p[|p| - 1]] && y + q == (y + q[..|q| - 1]) + [q[|q| - 1]];
    }
  }

  lemma LastTermOneReading(x: string, s: Term, y: string, t: Term)
    requires TermOk(s) && TermOk(t) && x + TermText(s) == y + TermText(t)
    requires (x == [] || IsOp(x[|x| - 1])) && (y == [] || IsOp(y[|y| - 1]))
    ensures x == y && s == t
  {
    SameKind(x, s, y, t);
    if s.Paren? {
      FlatFree(s.inner);
      FlatFree(t.inner);
      Enclosed(x, FlatText(s.inner), y, FlatText(t.inner), '(', ')');
      FlatOneReading(s.inner, t.inner);
    } else if s.Bracket? {
      BalancedFree(s.text, false);
      BalancedFree(t.text, false);
      Enclosed(x, s.text, y, t.text, '[', ']');
    } else {
      SplitLast(x, TermText(s), y, TermText(t), Separator);
      CountedOneReading(s, t);
    }
  }

  /** No two constraints are printed alike, so a text has one meaning. */
  lemma {:induction false} OneReading(a: Expr, b: Expr)
    requires TermsOk(a) && TermsOk(b) && Text(a) == Text(b)
    ensures a == b
  {
    var x, y := Before(a), Before(b);
    assert Text(a) == x + TermText(a.term) && Text(b) == y + TermText(b.term);
    LastTermOneReading(x, a.term, y, b.term);
    if a.Chain? && b.Chain? {
      DropLast(Text(a.init), OpText(a.op)[0], Text(b.init), OpText(b.op)[0]);
      OneReading(a.init, b.init);
    }
  }
}
