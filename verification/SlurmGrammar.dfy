/** Slurm's own syntax checks (the port in slurmconstraint_test.go), and when they pass a composed constraint. */
module SlurmGrammar {
  import opened Ordering
  import opened Constraint

  /** A count being read: whether a digit other than zero was seen. */
  datatype Digits = NoCount | Reading(positive: bool)

  datatype Check = Check(feature: bool, bracket: int, paren: int, sets: int, asterisk: bool, count: int, digits: Digits,
                         previous: char)

  const BEGIN := Check(false, 0, 0, 0, false, 0, NoCount, ' ')

  predicate Digit(c: char) { '0' <= c <= '9' }

  /** One character, with no count being read. */
  function Plainly(v: Check, c: char): Option<Check> {
    var w := v.(digits := NoCount, previous := c);
    match c
    case '*' =>
      if !v.feature || v.paren != 0 then None
      else Some(w.(digits := Reading(false), asterisk := v.asterisk || v.bracket == 0))
    case '&' => if !v.feature then None else Some(w.(feature := false, count := v.count + 1))
    case '|' => if !v.feature then None else Some(w.(feature := false, count := v.count + 1))
    case '[' =>
      if v.feature || v.bracket != 0 || v.paren != 0 || v.sets > 0 then None
      else Some(w.(bracket := v.bracket + 1, sets := v.sets + 1))
    case ']' => if !v.feature || v.bracket == 0 || v.paren != 0 then None else Some(w.(bracket := v.bracket - 1))
    case '(' => if v.feature || v.paren != 0 then None else Some(w.(paren := v.paren + 1))
    case ')' => if !v.feature || v.paren == 0 then None else Some(w.(paren := v.paren - 1))
    case _ => if v.feature && (v.previous == ')' || v.previous == ']') then None else Some(w.(feature := true))
  }

  function Next(v: Check, c: char): Option<Check> {
    if v.digits.Reading? then
      if Digit(c) then Some(v.(digits := Reading(v.digits.positive || c != '0'), previous := c))
      else if v.digits.positive then Plainly(v, c)
      else None
    else Plainly(v, c)
  }

  function Follow(v: Check, s: string): Option<Check>
    decreases |s|
  {
    if s == [] then Some(v)
    else
      match Next(v, s[0])
      case None => None
      case Some(w) => Follow(w, s[1..])
  }

  predicate Accepts(v: Check) {
    && (v.digits.Reading? ==> v.digits.positive) && v.bracket == 0 && v.paren == 0
    && !(v.asterisk && v.count + (if v.feature then 1 else 0) > 1)
  }

  /** slurmValidate. */
  predicate Valid(s: string) {
    Follow(BEGIN, s).Some? && Accepts(Follow(BEGIN, s).value)
  }

  lemma {:induction false} FollowConcat(v: Check, a: string, b: string)
    ensures Follow(v, a + b) == match Follow(v, a) { case None => None case Some(w) => Follow(w, b) }
    decreases |a|
  {
    if a == [] {
      assert a + b == b;
    } else {
      assert (a + b)[1..] == a[1..] + b;
      if Next(v, a[0]).Some? {
        FollowConcat(Next(v, a[0]).value, a[1..], b);
      }
    }
  }

  lemma FollowOne(v: Check, c: char)
    ensures Follow(v, [c]) == Next(v, c)
  {
    if Next(v, c).Some? {
      assert [c][1..] == [];
    }
  }

  lemma {:induction false} FollowName(v: Check, s: string)
    requires Unspecial(s) && s != [] && v.digits.NoCount?
    requires v.feature ==> v.previous != ')' && v.previous != ']'
    ensures Follow(v, s) == Some(v.(feature := true, previous := s[|s| - 1]))
    decreases |s|
  {
    var w := Next(v, s[0]).value;
    if |s| > 1 {
      FollowName(w, s[1..]);
    } else {
      assert s[1..] == [];
    }
  }

  function Occurrences(s: string, c: char): nat {
    if s == [] then 0 else (if s[0] == c then 1 else 0) + Occurrences(s[1..], c)
  }

  lemma {:induction false} FollowGroups(v: Check, s: string)
    requires v.sets >= 0 && Follow(v, s).Some?
    ensures Follow(v, s).value.paren == v.paren + Occurrences(s, '(') - Occurrences(s, ')')
    ensures Follow(v, s).value.bracket == v.bracket + Occurrences(s, '[') - Occurrences(s, ']')
    ensures Follow(v, s).value.sets == v.sets + Occurrences(s, '[')
    ensures Occurrences(s, '[') > 0 ==> Follow(v, s).value.sets == 1
    decreases |s|
  {
    if s != [] {
      FollowGroups(Next(v, s[0]).value, s[1..]);
    }
  }

  /** A valid constraint closes every group it opens, and has at most one bracket group. */
  lemma ValidGroups(s: string)
    requires Valid(s)
    ensures Occurrences(s, '(') == Occurrences(s, ')') && Occurrences(s, '[') == Occurrences(s, ']') <= 1
  {
    FollowGroups(BEGIN, s);
  }

  lemma {:induction false} FollowDigits(v: Check, s: string)
    requires v.digits.Reading? && s != [] && forall i :: 0 <= i < |s| ==> s[i] in "0123456789"
    ensures Follow(v, s) == Some(v.(digits := Reading(v.digits.positive || exists i :: 0 <= i < |s| && s[i] != '0'),
                                    previous := s[|s| - 1]))
    decreases |s|
  {
    var w := v.(digits := Reading(v.digits.positive || s[0] != '0'), previous := s[0]);
    assert Next(v, s[0]) == Some(w);
    if |s| > 1 {
      FollowDigits(w, s[1..]);
      assert (exists i :: 0 <= i < |s| && s[i] != '0') <==>
               s[0] != '0' || exists i :: 0 <= i < |s[1..]| && s[1..][i] != '0' by
      {
        if i :| 0 < i < |s| && s[i] != '0' {
          assert s[1..][i - 1] != '0';
        }
      }
    } else {
      assert s[1..] == [];
    }
  }

  /** A feature with a count is valid exactly when the count is not zero, and only by itself. */
  lemma CountedAlone(name: string, count: string, other: string)
    requires Plain(name) && Plain(other) && count != [] && forall i :: 0 <= i < |count| ==> count[i] in "0123456789"
    ensures Valid(name + "*" + count) <==> exists i :: 0 <= i < |count| && count[i] != '0'
    ensures !Valid(name + "*" + count + "&" + other) && !Valid(name + "*")
  {
    var named := BEGIN.(feature := true, previous := name[|name| - 1]);
    var starred := named.(digits := Reading(false), asterisk := true, previous := '*');
    FollowName(BEGIN, name);
    FollowOne(named, '*');
    FollowConcat(BEGIN, name, "*");
    FollowDigits(starred, count);
    FollowConcat(BEGIN, name + "*", count);
    CountedJoined(Follow(starred, count).value, name + "*" + count, other);
  }

  lemma CountedJoined(v: Check, s: string, other: string)
    requires Plain(other) && Follow(BEGIN, s) == Some(v)
    requires v.digits.Reading? && v.feature && v.asterisk && v.count == 0 && v.paren == 0 && v.bracket == 0
    ensures !Valid(s + "&" + other)
  {
    FollowOne(v, '&');
    FollowConcat(BEGIN, s, "&");
    FollowConcat(BEGIN, s + "&", other);
    if v.digits.positive {
      FollowName(v.(digits := NoCount, previous := '&', feature := false, count := 1), other);
    }
  }

  /** After "f&" everything is as at the start, except that one feature was counted. */
  lemma AfterRequired(required: string)
    requires Plain(required)
    ensures Follow(BEGIN, required + "&") == Some(BEGIN.(count := 1, previous := '&'))
  {
    FollowName(BEGIN, required);
    FollowConcat(BEGIN, required, "&");
    FollowOne(BEGIN.(feature := true, previous := required[|required| - 1]), '&');
  }

  /** Two checks that differ only in how many features they counted, and in what came before a first feature. */
  predicate Alike(v: Check, w: Check) {
    w == v.(count := w.count, previous := w.previous) && (v.feature ==> w.previous == v.previous)
  }

  lemma {:induction false} FollowAlike(v: Check, w: Check, s: string)
    requires Alike(v, w) && (v.digits.NoCount? || v.feature)
    ensures Follow(v, s).Some? <==> Follow(w, s).Some?
    ensures Follow(v, s).Some? ==> Alike(Follow(v, s).value, Follow(w, s).value)
    decreases |s|
  {
    if s != [] && Next(v, s[0]).Some? {
      FollowAlike(Next(v, s[0]).value, Next(w, s[0]).value, s[1..]);
    }
  }

  /** The scanner and Slurm's checks keep the same bracket depth; without a count outside brackets no asterisk is
      noted. */
  lemma {:induction false} NoAsterisk(st: Scan, v: Check, s: string)
    requires Run(st, s).Ok? && Follow(v, s).Some? && st.bracket == v.bracket && !v.asterisk
    requires !Run(st, s).value.shape.countOutsideBrackets
    ensures !Follow(v, s).value.asterisk
    decreases |s|
  {
    if s != [] {
      Kept(Step(st, s[0]).value, s[1..]);
      NoAsterisk(Step(st, s[0]).value, Next(v, s[0]).value, s[1..]);
    }
  }

  /** No characters but names and operators. */
  predicate Ungrouped(s: string) {
    forall i :: 0 <= i < |s| ==> s[i] !in {'(', ')', '[', ']', '*'}
  }

  lemma {:induction false} ShapeUngrouped(st: Scan, s: string)
    requires Run(st, s).Ok? && st.paren == 0 && st.bracket == 0
    requires var end := Run(st, s).value.shape; !end.hasParens && !end.hasBrackets && !end.countOutsideBrackets
    ensures Ungrouped(s)
    decreases |s|
  {
    if s != [] {
      Kept(Step(st, s[0]).value, s[1..]);
      ShapeUngrouped(Step(st, s[0]).value, s[1..]);
    }
  }

  /** Names and operators are checked alike inside and outside parentheses; a feature is pending unless an operator came
      last. */
  lemma {:induction false} UngroupedAlike(v: Check, w: Check, s: string)
    requires Ungrouped(s) && v.digits.NoCount? && !v.asterisk && v.bracket == 0 && v.paren == 0
    requires w == v.(count := w.count, paren := 1, previous := w.previous)
    requires v.feature ==> v.previous !in {')', ']'} && w.previous == v.previous
    ensures Follow(v, s).Some? <==> Follow(w, s).Some?
    ensures Follow(v, s).Some? ==> (var a, b := Follow(v, s).value, Follow(w, s).value;
              b == a.(count := b.count, paren := 1, previous := b.previous) && Accepts(a) && a.digits.NoCount?
              && a.bracket == 0
              && a.sets == v.sets && !a.asterisk && a.feature == (if s == [] then v.feature else !IsOp(s[|s| - 1])))
    decreases |s|
  {
    if s != [] && Next(v, s[0]).Some? {
      assert s == [s[0]] + s[1..];
      UngroupedAlike(Next(v, s[0]).value, Next(w, s[0]).value, s[1..]);
    }
  }

  /** Slurm accepts a composed constraint exactly when it accepts the original and, if the original had to be put in
      parentheses, the original does not end in an operator. */
  lemma ComposedValid(required: string, constraints: string)
    requires Plain(required) && Compose(required, constraints).Ok?
    requires var s := TrimSpace(constraints); s != "" && s != required
    ensures var s := TrimSpace(constraints);
            Valid(Compose(required, constraints).value) <==>
              Valid(s) && !(Analysis(s).value.topLevelOr && IsOp(s[|s| - 1]))
  {
    var s, r := TrimSpace(constraints), Compose(required, constraints).value;
    var after := BEGIN.(count := 1, previous := '&');
    AfterRequired(required);
    if !Analysis(s).value.topLevelOr {
      FollowConcat(BEGIN, required + "&", s);
      FollowAlike(BEGIN, after, s);
      if Follow(BEGIN, s).Some? {
        NoAsterisk(START, BEGIN, s);
        NoAsterisk(START, after, s);
      }
    } else {
      ParenthesizedValid(required, s);
    }
  }

  lemma ParenthesizedValid(required: string, s: string)
    requires Plain(required) && s != "" && Analysis(s).Ok?
    requires var shape := Analysis(s).value; !shape.hasParens && !shape.hasBrackets && !shape.countOutsideBrackets
    ensures Valid(required + "&(" + s + ")") <==> Valid(s) && !IsOp(s[|s| - 1])
  {
    var after := BEGIN.(count := 1, previous := '&');
    var within := after.(paren := 1, previous := '(');
    AfterRequired(required);
    FollowConcat(BEGIN, required + "&", "(");
    FollowOne(after, '(');
    assert required + "&(" + s + ")" == (required + "&" + "(") + s + ")";
    FollowConcat(BEGIN, required + "&" + "(", s);
    FollowConcat(BEGIN, required + "&" + "(" + s, ")");
    ShapeUngrouped(START, s);
    UngroupedAlike(BEGIN, within, s);
    if Follow(within, s).Some? {
      FollowOne(Follow(within, s).value, ')');
    }
  }

  /** Slurm accepts a trailing operator, and Compose moves it in front of a closing parenthesis, where Slurm does
      not. */
  lemma TrailingOperator()
    ensures Valid("a|") && Compose("f", "a|") == Ok("f&(a|)") && !Valid("f&(a|)")
  {
    var s := "a|";
    assert s[1..] == "|" && s[1..][1..] == [];
    assert Follow(BEGIN, s).Some?;
    TightStays(s);
    assert Run(START, s) == Ok(START.(shape := START.shape.(topLevelOr := true)));
    assert "f" + "&(" + s + ")" == "f&(a|)";
    ComposedValid("f", s);
  }
}
