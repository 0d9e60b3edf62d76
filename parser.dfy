/**
 * The dot-notation interpreter of lib/parser.ts: a script is split into
 * lines, each non-blank line is read as `object[id].action[("argument")]`
 * with a split on `.` and two unanchored regular expressions, and the parsed
 * commands are converted to the two executable actions of the chat preview.
 */
module Parser {
  import opened Wrappers
  import opened Text
  import opened Seqs

  /** `Command`; `obj` is its `object` field (a reserved word here); `id` and `argument` are `undefined` when absent. */
  datatype Command = Command(obj: string, id: Option<string>, action: string, argument: Option<string>)

  // ================================================================ /([가-힣]+)(\d+)?/

  /** A match of the object pattern: where group 1 starts, group 1, and group 2 if it took part. */
  datatype ObjectMatch = ObjectMatch(index: nat, name: string, id: Option<string>)

  /**
   * What the regular expression's semantics make of `s`: the match starts at
   * the first Hangul syllable (leftmost), group 1 takes the whole run of
   * syllables (greedy), and group 2 the whole run of digits right after it, if any.
   */
  ghost predicate IsObjectMatch(s: string, m: ObjectMatch) {
    var i, h := m.index, |m.name|;
    && 1 <= h && i + h <= |s|
    && (forall k :: 0 <= k < i ==> !IsHangul(s[k]))
    && m.name == s[i..i + h] && AllHangul(m.name)
    && (i + h == |s| || !IsHangul(s[i + h]))
    && match m.id
       case None => i + h == |s| || !IsDigit(s[i + h])
       case Some(d) =>
         && 1 <= |d| && i + h + |d| <= |s| && d == s[i + h..i + h + |d|] && AllDigits(d)
         && (i + h + |d| == |s| || !IsDigit(s[i + h + |d|]))
  }

  /** Index of the first Hangul syllable at or after `from`, or `|s|` when there is none. */
  function FirstHangul(s: string, from: nat): (i: nat)
    requires from <= |s|
    ensures from <= i <= |s|
    ensures i < |s| ==> IsHangul(s[i])
    ensures forall k :: from <= k < i ==> !IsHangul(s[k])
    decreases |s| - from
  {
    if from == |s| || IsHangul(s[from]) then from else FirstHangul(s, from + 1)
  }

  /** `s.match(/([가-힣]+)(\d+)?/)`. */
  function MatchObject(s: string): (m: Option<ObjectMatch>)
    ensures m.Some? ==> IsObjectMatch(s, m.value)
    ensures m.None? <==> forall k :: 0 <= k < |s| ==> !IsHangul(s[k])
  {
    var i := FirstHangul(s, 0);
    if i == |s| then None
    else
      var h := RunLength(s, i, HangulClass);
      var d := RunLength(s, i + h, DigitClass);
      assert ObjectRuns(s, i, h, d);
      ObjectMatchOfRuns(s, i, h, d);
      Some(MatchOfRuns(s, i, h, d))
  }

  /**
   * The facts a match stands for, position by position: no syllable before `i`,
   * `h` syllables from `i` and no more, then `d` digits and no more.
   */
  predicate ObjectRuns(s: string, i: nat, h: nat, d: nat) {
    && 1 <= h && i + h + d <= |s|
    && (forall k :: 0 <= k < i ==> !IsHangul(s[k]))
    && (forall k :: i <= k < i + h ==> IsHangul(s[k]))
    && (i + h == |s| || !IsHangul(s[i + h]))
    && (forall k :: i + h <= k < i + h + d ==> IsDigit(s[k]))
    && (i + h + d == |s| || !IsDigit(s[i + h + d]))
  }

  /** The match made of such runs: group 1 the syllables, group 2 the digits if there are any. */
  function MatchOfRuns(s: string, i: nat, h: nat, d: nat): ObjectMatch
    requires i + h + d <= |s|
  {
    ObjectMatch(i, s[i..i + h], if d == 0 then None else Some(s[i + h..i + h + d]))
  }

  /** Runs of syllables and digits from the first syllable make the match the semantics describe. */
  lemma ObjectMatchOfRuns(s: string, i: nat, h: nat, d: nat)
    requires ObjectRuns(s, i, h, d)
    ensures IsObjectMatch(s, MatchOfRuns(s, i, h, d))
  {
    var name, digits := s[i..i + h], s[i + h..i + h + d];
    forall k | 0 <= k < |name| ensures IsHangul(name[k]) {
      assert name[k] == s[i + k];
    }
    forall k | 0 <= k < |digits| ensures IsDigit(digits[k]) {
      assert digits[k] == s[i + h + k];
    }
  }

  function IdLength(m: ObjectMatch): nat {
    if m.id.Some? then |m.id.value| else 0
  }

  /** Conversely, a match the semantics describe is made of such runs. */
  lemma RunsOfObjectMatch(s: string, m: ObjectMatch)
    requires IsObjectMatch(s, m)
    ensures ObjectRuns(s, m.index, |m.name|, IdLength(m))
    ensures m == MatchOfRuns(s, m.index, |m.name|, IdLength(m))
  {
    var i, h := m.index, |m.name|;
    forall k | i <= k < i + h ensures IsHangul(s[k]) {
      assert s[k] == m.name[k - i];
    }
    if m.id.Some? {
      var d := m.id.value;
      forall k | i + h <= k < i + h + |d| ensures IsDigit(s[k]) {
        assert s[k] == d[k - i - h];
      }
    }
  }

  /** Runs from the first syllable are determined by the text. */
  lemma SameRuns(s: string, i1: nat, h1: nat, d1: nat, i2: nat, h2: nat, d2: nat)
    requires ObjectRuns(s, i1, h1, d1) && ObjectRuns(s, i2, h2, d2)
    ensures i1 == i2 && h1 == h2 && d1 == d2
  {
    assert IsHangul(s[i1]) && IsHangul(s[i2]);
  }

  /** The declarative description pins the match down: there is only one. */
  lemma ObjectMatchUnique(s: string, m1: ObjectMatch, m2: ObjectMatch)
    requires IsObjectMatch(s, m1) && IsObjectMatch(s, m2)
    ensures m1 == m2
  {
    RunsOfObjectMatch(s, m1);
    RunsOfObjectMatch(s, m2);
    SameRuns(s, m1.index, |m1.name|, IdLength(m1), m2.index, |m2.name|, IdLength(m2));
  }

  // ================================================================ /([가-힣]+)\(["'](.+?)["']\)/

  predicate IsQuote(c: char) {
    c == '"' || c == '\''
  }

  /** A match of the argument pattern: where group 1 starts, group 1 and group 2. */
  datatype ArgMatch = ArgMatch(index: nat, action: string, argument: string)

  /** No line terminator among the `k` characters from `q`: `.` matches each of them. */
  predicate DotsMatch(s: string, q: nat, k: nat)
    requires q + k <= |s|
  {
    forall j :: q <= j < q + k ==> !IsLineTerminator(s[j])
  }

  /** A quote of either kind `k` characters after `q`, then `)`. */
  predicate ClosesAfter(s: string, q: nat, k: nat) {
    q + k + 1 < |s| && IsQuote(s[q + k]) && s[q + k + 1] == ')'
  }

  /**
   * The pattern matches at `p` with a group 1 of `h` syllables and a group 2 of
   * `k` characters: syllables, `(`, a quote, `k` >= 1 non-terminators, a quote, `)`.
   */
  ghost predicate ArgRegexAt(s: string, p: nat, h: nat, k: nat) {
    && 1 <= h && 1 <= k && p + h + k + 4 <= |s|
    && (forall j :: p <= j < p + h ==> IsHangul(s[j]))
    && s[p + h] == '(' && IsQuote(s[p + h + 1])
    && DotsMatch(s, p + h + 2, k)
    && ClosesAfter(s, p + h + 2, k)
  }

  /** The lazy `(.+?)` followed by `["']\)`: tries the content lengths `k`, `k + 1`, ... in turn. */
  function LazyEnd(s: string, q: nat, k: nat): (r: Option<nat>)
    requires 1 <= k && q <= |s|
    requires q + k - 1 <= |s| && DotsMatch(s, q, k - 1)
    ensures r.Some? ==> && k <= r.value && q + r.value <= |s| && DotsMatch(s, q, r.value)
                        && ClosesAfter(s, q, r.value)
                        && forall k' :: k <= k' < r.value ==> !ClosesAfter(s, q, k')
    ensures r.None? ==> forall k' :: k <= k' && q + k' <= |s| && DotsMatch(s, q, k') ==> !ClosesAfter(s, q, k')
    decreases |s| + 1 - (q + k)
  {
    if q + k > |s| then None
    else if IsLineTerminator(s[q + k - 1]) then
      assert forall k' :: k <= k' && q + k' <= |s| ==> !DotsMatch(s, q, k');
      None
    else if ClosesAfter(s, q, k) then Some(k)
    else LazyEnd(s, q, k + 1)
  }

  /** The attempt of the argument pattern at position `p`, with the regular expression's backtracking. */
  function ArgAt(s: string, p: nat): (r: Option<ArgMatch>)
    requires p <= |s|
    ensures r.Some? ==> && r.value.index == p
                        && ArgRegexAt(s, p, |r.value.action|, |r.value.argument|)
                        && r.value.action == s[p..p + |r.value.action|]
                        && r.value.argument == s[p + |r.value.action| + 2..p + |r.value.action| + 2 + |r.value.argument|]
                        && forall k :: 1 <= k < |r.value.argument| ==> !ArgRegexAt(s, p, |r.value.action|, k)
    ensures r.None? ==> forall h, k :: !ArgRegexAt(s, p, h, k)
  {
    var h := RunLength(s, p, HangulClass);
    ArgGroupIsRun(s, p);
    if h == 0 || p + h + 2 > |s| || s[p + h] != '(' || !IsQuote(s[p + h + 1]) then None
    else
      match LazyEnd(s, p + h + 2, 1)
      case None => None
      case Some(k) => Some(ArgMatch(p, s[p..p + h], s[p + h + 2..p + h + 2 + k]))
  }

  /** Group 1 of a match at `p` is the whole run of syllables there. */
  lemma ArgGroupIsRun(s: string, p: nat)
    requires p <= |s|
    ensures forall h, k :: ArgRegexAt(s, p, h, k) ==> h == RunLength(s, p, HangulClass)
  {
    forall h, k | ArgRegexAt(s, p, h, k) ensures h == RunLength(s, p, HangulClass) {
      RunLengthUnique(s, p, HangulClass, h);
    }
  }

  /** Tries the argument pattern at `p`, `p + 1`, ... and returns the first match. */
  function SearchArg(s: string, p: nat): (r: Option<ArgMatch>)
    requires p <= |s|
    ensures r.Some? ==> p <= r.value.index <= |s| && ArgAt(s, r.value.index) == r
    ensures r.Some? ==> forall p', h, k :: p <= p' < r.value.index ==> !ArgRegexAt(s, p', h, k)
    ensures r.None? ==> forall p', h, k :: p <= p' ==> !ArgRegexAt(s, p', h, k)
    decreases |s| - p
  {
    if p == |s| then
      assert forall p': nat, h: nat, k: nat :: ArgRegexAt(s, p', h, k) ==> p' < |s|;
      None
    else
      match ArgAt(s, p)
      case Some(m) => Some(m)
      case None =>
        assert forall p': nat, h: nat, k: nat :: p <= p' && ArgRegexAt(s, p', h, k) ==> p + 1 <= p';
        SearchArg(s, p + 1)
  }

  /**
   * What the regular expression's semantics make of `s`: the pattern matches at
   * `m.index`, at no earlier position, and group 2 is the shortest that lets it match there.
   */
  ghost predicate IsArgMatch(s: string, m: ArgMatch) {
    var p, h, k := m.index, |m.action|, |m.argument|;
    && ArgRegexAt(s, p, h, k)
    && m.action == s[p..p + h] && m.argument == s[p + h + 2..p + h + 2 + k]
    && (forall p': nat, h': nat, k': nat :: p' < p ==> !ArgRegexAt(s, p', h', k'))
    && (forall k': nat :: 1 <= k' < k ==> !ArgRegexAt(s, p, h, k'))
  }

  ghost predicate NoArgMatch(s: string) {
    forall p: nat, h: nat, k: nat :: !ArgRegexAt(s, p, h, k)
  }

  /** `s.match(/([가-힣]+)\(["'](.+?)["']\)/)`: the leftmost, then shortest, match, or none when the pattern matches nowhere. */
  function MatchArgument(s: string): (r: Option<ArgMatch>)
    ensures r.Some? ==> IsArgMatch(s, r.value)
    ensures r.None? <==> NoArgMatch(s)
    ensures r.Some? ==> r.value.action != [] && AllHangul(r.value.action) && r.value.argument != []
  {
    SearchArg(s, 0)
  }

  /** At most one match fits the description. */
  lemma ArgMatchUnique(s: string, m1: ArgMatch, m2: ArgMatch)
    requires IsArgMatch(s, m1) && IsArgMatch(s, m2)
    ensures m1 == m2
  {
    var p := m1.index;
    assert p == m2.index;
    var h := |m1.action|;
    assert h == |m2.action|;
    assert |m1.argument| == |m2.argument|;
  }

  // ================================================================ one expression

  /** The text before the first `.` of `expr`. */
  function ObjectText(expr: string): string
    requires '.' in expr
  {
    expr[..IndexOf(expr, '.')]
  }

  /** The text between the first and the second `.` of `expr` (to the end when there is no second). */
  function ActionText(expr: string): string
    requires '.' in expr
  {
    var rest := expr[IndexOf(expr, '.') + 1..];
    if '.' in rest then rest[..IndexOf(rest, '.')] else rest
  }

  /** `expr.split(".")` has at least two pieces exactly when `expr` has a `.`; the first two are the object and action texts. */
  lemma SplitFields(expr: string)
    ensures var parts := Split(expr, '.');
      (|parts| >= 2 <==> '.' in expr) &&
      ('.' in expr ==> parts[0] == ObjectText(expr) && parts[1] == ActionText(expr))
  {
    if '.' in expr {
      var i := IndexOf(expr, '.');
      var rest := expr[i + 1..];
      var tail := Split(rest, '.');
      assert Split(expr, '.') == [expr[..i]] + tail;
      SplitFirst(rest, '.');
    } else {
      assert Split(expr, '.') == [expr];
    }
  }

  predicate NoHangul(s: string) {
    forall k :: 0 <= k < |s| ==> !IsHangul(s[k])
  }

  /** What the two regular expressions make of the trimmed object part `o` and the trimmed action part `a`. */
  ghost predicate FitsParts(o: string, a: string, c: Command) {
    && (exists i: nat :: IsObjectMatch(o, ObjectMatch(i, c.obj, c.id)))
    && match c.argument
       case Some(x) => exists p: nat :: IsArgMatch(a, ArgMatch(p, c.action, x))
       case None => NoArgMatch(a) && c.action == a
  }

  /**
   * The command the two regular expressions make of `expr`: object and id from
   * the text before the first `.`, action and argument from the text between the
   * first and the second `.`, both trimmed.
   */
  ghost predicate Describes(expr: string, c: Command) {
    '.' in expr && FitsParts(Trim(ObjectText(expr)), Trim(ActionText(expr)), c)
  }

  /** The body of `parseObjectExpression` after the split: the command made of the trimmed parts, if any. */
  function ParseParts(objectPart: string, actionPart: string): (r: Option<Command>)
    ensures r.None? <==> NoHangul(objectPart)
    ensures r.Some? ==> FitsParts(objectPart, actionPart, r.value)
  {
    match MatchObject(objectPart)
    case None => None
    case Some(om) =>
      assert IsObjectMatch(objectPart, ObjectMatch(om.index, om.name, om.id));
      match MatchArgument(actionPart)
      case Some(am) =>
        assert IsArgMatch(actionPart, ArgMatch(am.index, am.action, am.argument));
        Some(Command(om.name, om.id, am.action, Some(am.argument)))
      case None => Some(Command(om.name, om.id, actionPart, None))
  }

  /** `parseObjectExpression(expr)`; `None` is its `null`. */
  function ParseObjectExpression(expr: string): (r: Option<Command>)
    ensures r.None? <==> '.' !in expr || NoHangul(Trim(ObjectText(expr)))
    ensures r.Some? ==> Describes(expr, r.value)
  {
    var parts := Split(expr, '.');
    SplitFields(expr);
    if |parts| < 2 then None
    else ParseParts(Trim(parts[0]), Trim(parts[1]))
  }

  /** Only the two trimmed fields matter. */
  lemma ParseByFields(expr: string)
    requires '.' in expr
    ensures ParseObjectExpression(expr) == ParseParts(Trim(ObjectText(expr)), Trim(ActionText(expr)))
  {
    SplitFields(expr);
  }

  /** At most one command fits the two parts. */
  lemma FitsPartsUnique(o: string, a: string, c1: Command, c2: Command)
    requires FitsParts(o, a, c1) && FitsParts(o, a, c2)
    ensures c1 == c2
  {
    var i1: nat :| IsObjectMatch(o, ObjectMatch(i1, c1.obj, c1.id));
    var i2: nat :| IsObjectMatch(o, ObjectMatch(i2, c2.obj, c2.id));
    ObjectMatchUnique(o, ObjectMatch(i1, c1.obj, c1.id), ObjectMatch(i2, c2.obj, c2.id));
    match (c1.argument, c2.argument)
    case (Some(x1), Some(x2)) =>
      var p1: nat :| IsArgMatch(a, ArgMatch(p1, c1.action, x1));
      var p2: nat :| IsArgMatch(a, ArgMatch(p2, c2.action, x2));
      ArgMatchUnique(a, ArgMatch(p1, c1.action, x1), ArgMatch(p2, c2.action, x2));
    case (None, None) =>
    case (Some(x1), None) =>
    case (None, Some(x2)) =>
  }

  /** A command that fits the two parts is what the parser makes of them. */
  lemma FitsPartsParse(o: string, a: string, c: Command)
    requires FitsParts(o, a, c)
    ensures ParseParts(o, a) == Some(c)
  {
    var i: nat :| IsObjectMatch(o, ObjectMatch(i, c.obj, c.id));
    assert IsHangul(o[i]) by { assert o[i] == c.obj[0]; }
    FitsPartsUnique(o, a, ParseParts(o, a).value, c);
  }

  /** The description determines the command: the parser's result is the only command it fits. */
  lemma DescribesUnique(expr: string, c1: Command, c2: Command)
    requires Describes(expr, c1) && Describes(expr, c2)
    ensures c1 == c2
  {
    FitsPartsUnique(Trim(ObjectText(expr)), Trim(ActionText(expr)), c1, c2);
  }

  /** Conversely, a command that fits the description is what the parser returns. */
  lemma DescribedParses(expr: string, c: Command)
    requires Describes(expr, c)
    ensures ParseObjectExpression(expr) == Some(c)
  {
    ParseByFields(expr);
    FitsPartsParse(Trim(ObjectText(expr)), Trim(ActionText(expr)), c);
  }

  /** Every parsed command has a non-empty Hangul object, a digit id when it has one, and a non-empty argument when it has one. */
  lemma ParsedCommandShape(expr: string)
    requires ParseObjectExpression(expr).Some?
    ensures var c := ParseObjectExpression(expr).value;
      && c.obj != [] && AllHangul(c.obj)
      && (c.id.Some? ==> c.id.value != [] && AllDigits(c.id.value))
      && (c.argument.Some? ==> c.argument.value != [] && c.action != [] && AllHangul(c.action))
  {
    var c := ParseObjectExpression(expr).value;
    assert Describes(expr, c);
    FitsShape(Trim(ObjectText(expr)), Trim(ActionText(expr)), c);
  }

  /** A command that fits the two fields has the shape the two patterns give it. */
  lemma FitsShape(o: string, a: string, c: Command)
    requires FitsParts(o, a, c)
    ensures c.obj != [] && AllHangul(c.obj)
    ensures c.id.Some? ==> c.id.value != [] && AllDigits(c.id.value)
    ensures c.argument.Some? ==> c.argument.value != [] && c.action != [] && AllHangul(c.action)
  {
    var i: nat :| IsObjectMatch(o, ObjectMatch(i, c.obj, c.id));
    if c.argument.Some? {
      var p: nat :| IsArgMatch(a, ArgMatch(p, c.action, c.argument.value));
    }
  }

  // ================================================================ properties of one expression

  /** With no `.` in `x`, the object text of `x.y` is `x` and its action text is `y` up to its own first `.`. */
  lemma FieldsOf(x: string, y: string)
    requires '.' !in x
    ensures '.' in x + "." + y
    ensures ObjectText(x + "." + y) == x
    ensures ActionText(x + "." + y) == if '.' in y then y[..IndexOf(y, '.')] else y
  {
    var e := x + "." + y;
    assert e[|x|] == '.';
    assert forall j :: 0 <= j < |x| ==> e[j] == x[j];
    assert forall m :: |x| < m <= |e| ==> e[..m][|x|] == '.';
    var i := IndexOf(e, '.');
    assert i == |x|;
    assert e[..i] == x;
    assert e[i + 1..] == y;
  }

  /** A line without `.` yields no command. */
  lemma NoDotNoCommand(expr: string)
    requires '.' !in expr
    ensures ParseObjectExpression(expr) == None
  {
  }

  /** Everything after a second `.` is ignored: `x.y.z` parses as `x.y`. */
  lemma {:induction false} OnlyFirstTwoFields(x: string, y: string, z: string)
    requires '.' !in x && '.' !in y
    ensures ParseObjectExpression(x + "." + y + "." + z) == ParseObjectExpression(x + "." + y)
  {
    var e1, e2 := x + "." + y + "." + z, x + "." + y;
    assert e1 == x + "." + (y + "." + z);
    FieldsOf(x, y + "." + z);
    FieldsOf(x, y);
    FieldsOf(y, z);
    assert ActionText(e1) == y;
    ParseByFields(e1);
    ParseByFields(e2);
  }

  lemma ObjectTextHasNoDot(name: string, digits: string)
    requires AllHangul(name) && AllDigits(digits)
    ensures '.' !in name + digits
  {
    assert forall j :: 0 <= j < |name + digits| ==> IsHangul((name + digits)[j]) || IsDigit((name + digits)[j]);
  }

  /** A trimmed text starting with a Hangul syllable and ending in a syllable or a digit. */
  lemma ObjectTextTrimmed(name: string, digits: string)
    requires name != [] && AllHangul(name) && AllDigits(digits)
    ensures Trim(name + digits) == name + digits
  {
    var o := name + digits;
    assert o[0] == name[0];
    assert o[|o| - 1] == if digits == [] then name[|name| - 1] else digits[|digits| - 1];
    TrimOfTrimmed(o);
  }

  /** The object pattern on `name` followed by `digits` matches at 0 with exactly those groups. */
  lemma ObjectOf(name: string, digits: string)
    requires name != [] && AllHangul(name) && AllDigits(digits)
    ensures IsObjectMatch(name + digits, ObjectMatch(0, name, if digits == [] then None else Some(digits)))
  {
    var o := name + digits;
    assert o[..|name|] == name;
    assert o[|name|..] == digits;
    if |name| < |o| {
      assert o[|name|] == digits[0];
    }
  }

  /** No match of the argument pattern without both parentheses. */
  lemma NoParenthesesNoArgument(a: string)
    requires '(' !in a || ')' !in a
    ensures NoArgMatch(a)
  {
  }

  /**
   * `E[d].A` for a Hangul object `E`, digits `d` and an action text `A` without `.`,
   * untouched by `trim` and without a match of the argument pattern:
   * object `E`, id `d` when non-empty, action `A` verbatim, no argument.
   */
  lemma PlainExpression(name: string, digits: string, action: string)
    requires name != [] && AllHangul(name) && AllDigits(digits)
    requires '.' !in action && IsTrimmed(action) && NoArgMatch(action)
    ensures ParseObjectExpression(name + digits + "." + action)
         == Some(Command(name, if digits == [] then None else Some(digits), action, None))
  {
    var expr := name + digits + "." + action;
    var c := Command(name, if digits == [] then None else Some(digits), action, None);
    FieldsOfObjectExpression(name, digits, action);
    PlainFits(name, digits, action);
    ParseByFields(expr);
    FitsPartsParse(name + digits, action, c);
  }

  /** The trimmed fields of `E[d].A`, for a text `A` without `.` that `trim` leaves alone. */
  lemma FieldsOfObjectExpression(name: string, digits: string, action: string)
    requires name != [] && AllHangul(name) && AllDigits(digits)
    requires '.' !in action && IsTrimmed(action)
    ensures '.' in name + digits + "." + action
    ensures Trim(ObjectText(name + digits + "." + action)) == name + digits
    ensures Trim(ActionText(name + digits + "." + action)) == action
  {
    ObjectTextHasNoDot(name, digits);
    FieldsOf(name + digits, action);
    ObjectTextTrimmed(name, digits);
    TrimOfTrimmed(action);
  }

  lemma PlainFits(name: string, digits: string, action: string)
    requires name != [] && AllHangul(name) && AllDigits(digits) && NoArgMatch(action)
    ensures FitsParts(name + digits, action, Command(name, if digits == [] then None else Some(digits), action, None))
  {
    ObjectOf(name, digits);
  }

  /** The action text `H(q1 X q2)` with a Hangul `H`, quotes `q1`, `q2` and a content `X` without quotes or line terminators. */
  function CallText(action: string, q1: char, content: string, q2: char): string {
    action + "(" + [q1] + content + [q2] + ")"
  }

  /** The argument pattern matches `H(q1 X q2)` at 0 with groups `H` and `X`, whatever the two quotes are. */
  lemma ArgumentOf(action: string, q1: char, content: string, q2: char)
    requires action != [] && AllHangul(action) && IsQuote(q1) && IsQuote(q2)
    requires content != [] && forall j :: 0 <= j < |content| ==> !IsQuote(content[j]) && !IsLineTerminator(content[j])
    ensures IsArgMatch(CallText(action, q1, content, q2), ArgMatch(0, action, content))
  {
    var a := CallText(action, q1, content, q2);
    var h, k := |action|, |content|;
    assert forall j :: 0 <= j < h ==> a[j] == action[j];
    assert forall j :: 0 <= j < k ==> a[h + 2 + j] == content[j];
    assert a[h] == '(' && a[h + 1] == q1 && a[h + 2 + k] == q2 && a[h + 3 + k] == ')';
    assert a[..h] == action;
    assert a[h + 2..h + 2 + k] == content;
    forall k': nat | 1 <= k' < k ensures !ArgRegexAt(a, 0, h, k') {
      assert a[h + 2 + k'] == content[k'];
    }
  }

  /**
   * `E[d].H(q1 X q2)` with `X` free of quotes, `.` and line terminators: object `E`,
   * id `d` when non-empty, action `H` and argument `X`; the quotes need not be of the same kind.
   */
  lemma CallExpression(name: string, digits: string, action: string, q1: char, content: string, q2: char)
    requires name != [] && AllHangul(name) && AllDigits(digits)
    requires action != [] && AllHangul(action) && IsQuote(q1) && IsQuote(q2)
    requires content != [] && '.' !in content
    requires forall j :: 0 <= j < |content| ==> !IsQuote(content[j]) && !IsLineTerminator(content[j])
    ensures ParseObjectExpression(name + digits + "." + CallText(action, q1, content, q2))
         == Some(Command(name, if digits == [] then None else Some(digits), action, Some(content)))
  {
    var a := CallText(action, q1, content, q2);
    var expr := name + digits + "." + a;
    var c := Command(name, if digits == [] then None else Some(digits), action, Some(content));
    CallTextHasNoDot(action, q1, content, q2);
    FieldsOfObjectExpression(name, digits, a);
    CallFits(name, digits, action, q1, content, q2);
    ParseByFields(expr);
    FitsPartsParse(name + digits, a, c);
  }

  lemma CallTextHasNoDot(action: string, q1: char, content: string, q2: char)
    requires action != [] && AllHangul(action) && IsQuote(q1) && IsQuote(q2) && '.' !in content
    ensures '.' !in CallText(action, q1, content, q2) && IsTrimmed(CallText(action, q1, content, q2))
  {
    var a := CallText(action, q1, content, q2);
    assert forall j :: 0 <= j < |a| ==> a[j] == '(' || a[j] == ')' || IsQuote(a[j]) || IsHangul(a[j]) || a[j] in content;
    assert a[0] == action[0] && a[|a| - 1] == ')';
  }

  lemma CallFits(name: string, digits: string, action: string, q1: char, content: string, q2: char)
    requires name != [] && AllHangul(name) && AllDigits(digits)
    requires action != [] && AllHangul(action) && IsQuote(q1) && IsQuote(q2)
    requires content != [] && forall j :: 0 <= j < |content| ==> !IsQuote(content[j]) && !IsLineTerminator(content[j])
    ensures FitsParts(name + digits, CallText(action, q1, content, q2),
                      Command(name, if digits == [] then None else Some(digits), action, Some(content)))
  {
    ObjectOf(name, digits);
    ArgumentOf(action, q1, content, q2);
  }

  // ================================================================ a script

  /** The callback of the `filter`: a line is kept when `trim` leaves something of it. */
  function KeepIfNotBlank(line: string): Option<string> {
    if Trim(line) != [] then Some(line) else None
  }

  /** `code.split("\n").filter((line) => line.trim())`: the lines that are not whitespace only, untrimmed. */
  function NonBlankLines(code: string): seq<string> {
    FilterMap(KeepIfNotBlank, Split(code, '\n'))
  }

  /** The command a line of the script contributes, if any. */
  function ParseLine(line: string): Option<Command> {
    ParseObjectExpression(Trim(line))
  }

  /** The commands of the lines in order, one for each line that parses. */
  function ParseLines(lines: seq<string>): seq<Command> {
    FilterMap(ParseLine, lines)
  }

  /** `parseObjectDotNotation(code)`, as a value. */
  function ParseScript(code: string): seq<Command> {
    ParseLines(NonBlankLines(code))
  }

  /** `parseObjectDotNotation`: pushes the command of each non-blank line, in order. */
  method ParseObjectDotNotation(code: string) returns (commands: seq<Command>)
    ensures commands == ParseScript(code)
  {
    commands := [];
    var lines := NonBlankLines(code);
    var i := 0;
    while i < |lines|
      invariant 0 <= i <= |lines|
      invariant commands == ParseLines(lines[..i])
    {
      var trimmedLine := Trim(lines[i]);
      var parsed := ParseObjectExpression(trimmedLine);
      ParseLinesStep(lines, i, parsed);
      if parsed.Some? {
        commands := commands + [parsed.value];
      }
      i := i + 1;
    }
    assert lines[..i] == lines;
  }

  lemma ParseLinesStep(lines: seq<string>, i: nat, parsed: Option<Command>)
    requires i < |lines| && parsed == ParseLine(lines[i])
    ensures ParseLines(lines[..i + 1]) == ParseLines(lines[..i]) + if parsed.Some? then [parsed.value] else []
  {
    FilterMapPrefixStep(ParseLine, lines, i, parsed);
  }

  /** At most one command per non-blank line, so at most one more than the number of line breaks. */
  lemma ScriptLength(code: string)
    ensures |ParseScript(code)| <= |NonBlankLines(code)| <= Count(code, '\n') + 1
  {
    SplitCount(code, '\n');
  }

  /** Each command of a script is the command of one of its lines. */
  lemma ScriptCommandFromLine(code: string, c: Command)
    requires c in ParseScript(code)
    ensures exists line :: line in Split(code, '\n') && ParseLine(line) == Some(c)
  {
    var lines := NonBlankLines(code);
    FilterMapFrom(ParseLine, lines, c);
    var k :| 0 <= k < |lines| && ParseLine(lines[k]) == Some(c);
    NonBlankLineOf(code, k);
  }

  /** The non-blank lines are lines of the script that `trim` does not empty. */
  lemma NonBlankLineOf(code: string, k: nat)
    requires k < |NonBlankLines(code)|
    ensures NonBlankLines(code)[k] in Split(code, '\n') && Trim(NonBlankLines(code)[k]) != []
  {
    var pieces, line := Split(code, '\n'), NonBlankLines(code)[k];
    FilterMapFrom(KeepIfNotBlank, pieces, line);
    var j :| 0 <= j < |pieces| && KeepIfNotBlank(pieces[j]) == Some(line);
  }

  /** The commands of `a`, a line break and `b` are the commands of `a` followed by those of `b`. */
  lemma ScriptConcat(a: string, b: string)
    ensures ParseScript(a + "\n" + b) == ParseScript(a) + ParseScript(b)
  {
    SplitConcat(a, '\n', b);
    FilterMapAppend(KeepIfNotBlank, Split(a, '\n'), Split(b, '\n'));
    FilterMapAppend(ParseLine, NonBlankLines(a), NonBlankLines(b));
  }

  /** A script without `.` has no command. */
  lemma ScriptWithoutDot(code: string)
    requires '.' !in code
    ensures ParseScript(code) == []
  {
    var pieces := Split(code, '\n');
    SplitAvoids(code, '\n', '.');
    var lines := NonBlankLines(code);
    forall k | 0 <= k < |lines| ensures '.' !in lines[k] {
      FilterMapFrom(KeepIfNotBlank, pieces, lines[k]);
    }
    ParseLinesNoDot(lines);
  }

  /** A script of one line without line break has that line's command, if any, and nothing else. */
  lemma ScriptOfOneLine(line: string)
    requires '\n' !in line
    ensures ParseScript(line) == if ParseLine(line).Some? then [ParseLine(line).value] else []
  {
    assert Split(line, '\n') == [line];
    FilterMapOne(KeepIfNotBlank, line);
    if Trim(line) == [] {
      assert NonBlankLines(line) == [];
      assert '.' !in Trim(line);
    } else {
      assert NonBlankLines(line) == [line];
      FilterMapOne(ParseLine, line);
    }
  }

  /** The script's commands are those of its first lines followed by those of the rest. */
  lemma ParseLinesAppend(a: seq<string>, b: seq<string>)
    ensures ParseLines(a + b) == ParseLines(a) + ParseLines(b)
  {
    FilterMapAppend(ParseLine, a, b);
  }

  /** No command at all when no line has a `.`. */
  lemma ParseLinesNoDot(lines: seq<string>)
    requires forall k :: 0 <= k < |lines| ==> '.' !in lines[k]
    ensures ParseLines(lines) == []
  {
    forall k | 0 <= k < |lines| ensures ParseLine(lines[k]).None? {
      assert forall c :: c in Trim(lines[k]) ==> c in lines[k];
    }
    FilterMapEmpty(ParseLine, lines);
  }

  /** `H(q1q2)`: nothing between the quotes, so the argument pattern finds no match. */
  lemma EmptyQuotesNoArgument(action: string, q1: char, q2: char)
    requires AllHangul(action)
    ensures NoArgMatch(action + "(" + [q1, q2] + ")")
  {
  }

  // ================================================================ convertToExecutableCommands

  /** The executable commands, `{type: "selectChatRoom", roomId}` and `{type: "sendMessage", roomId, message}`. */
  datatype Action = SelectChatRoom(roomId: string) | SendMessage(roomId: string, message: string)

  const ChatRoomObject: string := "채팅방"
  const SelectActions: seq<string> := ["열기", "보여주기", "선택", "표시"]
  const SendActions: seq<string> := ["전송"]

  /** JavaScript truthiness of an optional string: present and not empty. */
  predicate Truthy(s: Option<string>) {
    s.Some? && s.value != []
  }

  /** The callback of the `map`: the action a command stands for, or `None` (`null`) when it is dropped. */
  function ConvertCommand(c: Command): (r: Option<Action>)
    ensures (r.Some? && r.value.SelectChatRoom?)
        <==> c.obj == ChatRoomObject && Truthy(c.id) && c.action in SelectActions
    ensures (r.Some? && r.value.SendMessage?)
        <==> c.obj == ChatRoomObject && Truthy(c.id) && c.action in SendActions && Truthy(c.argument)
    ensures r.Some? ==> Truthy(c.id) && r.value.roomId == c.id.value
    ensures r.Some? && r.value.SendMessage? ==> Truthy(c.argument) && r.value.message == c.argument.value
  {
    if c.obj == ChatRoomObject && Truthy(c.id) then
      if c.action in SelectActions then Some(SelectChatRoom(c.id.value))
      else if c.action in SendActions && Truthy(c.argument) then Some(SendMessage(c.id.value, c.argument.value))
      else None
    else None
  }

  /** `convertToExecutableCommands(commands)`: the actions of the commands that have one, in order. */
  function ConvertToExecutableCommands(commands: seq<Command>): seq<Action> {
    FilterMap(ConvertCommand, commands)
  }

  /** The converter keeps the order of its input: converting two blocks converts each. */
  lemma ConvertAppend(a: seq<Command>, b: seq<Command>)
    ensures ConvertToExecutableCommands(a + b) == ConvertToExecutableCommands(a) + ConvertToExecutableCommands(b)
  {
    FilterMapAppend(ConvertCommand, a, b);
  }

  /** The converter never lengthens the list, and returns nothing exactly when it drops every command. */
  lemma ConvertLength(commands: seq<Command>)
    ensures |ConvertToExecutableCommands(commands)| <= |commands|
    ensures ConvertToExecutableCommands(commands) == []
        <==> forall k :: 0 <= k < |commands| ==> ConvertCommand(commands[k]).None?
  {
    FilterMapEmpty(ConvertCommand, commands);
  }

  /** Every action comes from a `채팅방` command with an id: its room id is that id. */
  lemma ActionFromCommand(commands: seq<Command>, x: Action)
    requires x in ConvertToExecutableCommands(commands)
    ensures exists k :: 0 <= k < |commands| && commands[k].obj == ChatRoomObject
                        && commands[k].id == Some(x.roomId) && x.roomId != []
  {
    FilterMapFrom(ConvertCommand, commands, x);
  }

  // ================================================================ lines of the language

  /** `채팅방<d>.<A>` for digits `d` and an action `A` among 열기, 보여주기, 선택 and 표시 selects room `d`. */
  lemma SelectLine(digits: string, action: string)
    requires digits != [] && AllDigits(digits) && action in SelectActions
    ensures var c := ParseObjectExpression(ChatRoomObject + digits + "." + action);
      c.Some? && ConvertCommand(c.value) == Some(SelectChatRoom(digits))
  {
    KeywordsAreHangul();
    SelectActionIsPlain(action);
    NoParenthesesNoArgument(action);
    PlainExpression(ChatRoomObject, digits, action);
    SelectConverts(digits, action);
  }

  /** The select actions have no parenthesis, no `.` and no surrounding whitespace. */
  lemma SelectActionIsPlain(action: string)
    requires action in SelectActions
    ensures '(' !in action && '.' !in action && IsTrimmed(action)
  {
  }

  /** A `채팅방` command with an id and a select action selects that room. */
  lemma SelectConverts(digits: string, action: string)
    requires digits != [] && action in SelectActions
    ensures ConvertCommand(Command(ChatRoomObject, Some(digits), action, None)) == Some(SelectChatRoom(digits))
  {
  }

  /** `채팅방<d>.전송(q1 X q2)` sends `X` to room `d`, whatever the quotes. */
  lemma SendLine(digits: string, q1: char, content: string, q2: char)
    requires digits != [] && AllDigits(digits) && IsQuote(q1) && IsQuote(q2)
    requires content != [] && '.' !in content
    requires forall j :: 0 <= j < |content| ==> !IsQuote(content[j]) && !IsLineTerminator(content[j])
    ensures var c := ParseObjectExpression(ChatRoomObject + digits + "." + CallText("전송", q1, content, q2));
      c.Some? && ConvertCommand(c.value) == Some(SendMessage(digits, content))
  {
    KeywordsAreHangul();
    CallExpression(ChatRoomObject, digits, "전송", q1, content, q2);
    SendConverts(digits, content);
  }

  /** The object and the send action are written in syllables only. */
  lemma KeywordsAreHangul()
    ensures AllHangul(ChatRoomObject) && AllHangul("전송")
  {
  }

  /** A `채팅방` command with an id, 전송 and a non-empty argument sends it to that room. */
  lemma SendConverts(digits: string, content: string)
    requires digits != [] && content != []
    ensures ConvertCommand(Command(ChatRoomObject, Some(digits), "전송", Some(content))) == Some(SendMessage(digits, content))
  {
    assert "전송" !in SelectActions && "전송" in SendActions;
  }

  /**
   * `E[d].H(q1 X.Y q2)`: the second `.` cuts the action text to `H(q1 X`, which has
   * no `)`, so the action is that text and there is no argument; `채팅방1.전송("a.b")` is one.
   */
  lemma DotInsideArgument(name: string, digits: string, action: string, q1: char, x: string, y: string, q2: char)
    requires name != [] && AllHangul(name) && AllDigits(digits)
    requires action != [] && AllHangul(action) && IsQuote(q1) && IsQuote(q2)
    requires '.' !in x && ')' !in x && IsTrimmed(x)
    ensures ParseObjectExpression(name + digits + "." + CallText(action, q1, x + "." + y, q2))
         == Some(Command(name, if digits == [] then None else Some(digits), action + "(" + [q1] + x, None))
  {
    var cut := action + "(" + [q1] + x;
    var rest := y + [q2] + ")";
    assert CallText(action, q1, x + "." + y, q2) == cut + "." + rest;
    ObjectTextHasNoDot(name, digits);
    CutHasNoDot(action, q1, x);
    assert name + digits + "." + CallText(action, q1, x + "." + y, q2) == (name + digits) + "." + cut + "." + rest;
    OnlyFirstTwoFields(name + digits, cut, rest);
    NoParenthesesNoArgument(cut);
    PlainExpression(name, digits, cut);
  }

  lemma CutHasNoDot(action: string, q1: char, x: string)
    requires action != [] && AllHangul(action) && IsQuote(q1)
    requires '.' !in x && ')' !in x && IsTrimmed(x)
    ensures var cut := action + "(" + [q1] + x;
      '.' !in cut && ')' !in cut && IsTrimmed(cut)
  {
    var cut := action + "(" + [q1] + x;
    assert forall j :: 0 <= j < |cut| ==> IsHangul(cut[j]) || cut[j] == '(' || IsQuote(cut[j]) || cut[j] in x;
    assert cut[0] == action[0];
    assert cut[|cut| - 1] == if x == [] then q1 else x[|x| - 1];
  }

  /**
   * `E[d].H(q1q2)`: the argument pattern needs a character between the quotes, so the
   * action is the whole text and there is no argument; `채팅방1.전송("")` is one.
   */
  lemma EmptyArgument(name: string, digits: string, action: string, q1: char, q2: char)
    requires name != [] && AllHangul(name) && AllDigits(digits)
    requires action != [] && AllHangul(action) && IsQuote(q1) && IsQuote(q2)
    ensures var a := action + "(" + [q1, q2] + ")";
      ParseObjectExpression(name + digits + "." + a)
        == Some(Command(name, if digits == [] then None else Some(digits), a, None))
  {
    var a := action + "(" + [q1, q2] + ")";
    EmptyQuotesNoArgument(action, q1, q2);
    assert forall j :: 0 <= j < |a| ==> IsHangul(a[j]) || a[j] == '(' || a[j] == ')' || IsQuote(a[j]);
    assert a[0] == action[0] && a[|a| - 1] == ')';
    PlainExpression(name, digits, a);
  }

  /**
   * `E[d].V=F[e].W`: there is no binding syntax; the line is an ordinary expression whose
   * action is `V=F[e]` and whose last field is ignored, as for `채팅목록1.클릭=채팅방1.열기`.
   */
  lemma NoBindingSyntax(name: string, digits: string, event: string, target: string, targetDigits: string, rest: string)
    requires name != [] && AllHangul(name) && AllDigits(digits)
    requires event != [] && AllHangul(event) && AllHangul(target) && AllDigits(targetDigits)
    ensures var binding := event + "=" + target + targetDigits;
      ParseObjectExpression(name + digits + "." + binding + "." + rest)
        == Some(Command(name, if digits == [] then None else Some(digits), binding, None))
  {
    var binding := event + "=" + target + targetDigits;
    BindingText(event, target, targetDigits);
    ObjectTextHasNoDot(name, digits);
    OnlyFirstTwoFields(name + digits, binding, rest);
    NoParenthesesNoArgument(binding);
    PlainExpression(name, digits, binding);
  }

  lemma BindingText(event: string, target: string, targetDigits: string)
    requires event != [] && AllHangul(event) && AllHangul(target) && AllDigits(targetDigits)
    ensures var binding := event + "=" + target + targetDigits;
      '.' !in binding && '(' !in binding && IsTrimmed(binding)
  {
    var binding := event + "=" + target + targetDigits;
    assert forall j :: 0 <= j < |binding| ==> IsHangul(binding[j]) || binding[j] == '=' || IsDigit(binding[j]);
    assert binding[0] == event[0];
    assert binding[|binding| - 1] == if targetDigits != [] then targetDigits[|targetDigits| - 1]
                                     else if target != [] then target[|target| - 1] else '=';
  }

  /** `채팅방1.`: an empty action, kept as it is. */
  lemma EmptyAction()
    ensures ParseObjectExpression("채팅방1.") == Some(Command("채팅방", Some("1"), "", None))
  {
    assert "채팅방1." == "채팅방" + "1" + "." + "";
    NoParenthesesNoArgument("");
    PlainExpression("채팅방", "1", "");
  }
}
