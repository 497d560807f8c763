/**
 * The voice/text command parser (src/utils/parser.py).
 *
 * The input is lower-cased and stripped, then matched with Python's `re.match` (anchored
 * at the start only) against `<verb>\s+(\d+)\s+(.+)` for the verbs "add", "sold" and
 * "delete", in that order. `MatchPattern` computes the match the regular-expression
 * engine returns; `MatchAt` describes every way the pattern can match, and the lemmas
 * `MatchPatternSound` and `MatchPatternComplete` tie the two together.
 */
module CommandParser {
  import opened Wrappers
  import opened Text

  datatype Action = Add | Sell | Delete

  datatype Command = Command(action: Action, quantity: int, product: string)

  datatype ParseError =
    | QuantityNotPositive    // "Quantity must be greater than 0"
    | InvalidQuantityFormat  // "Invalid quantity format" (`int()` raised ValueError)
    | InvalidCommandFormat   // no pattern matched

  datatype ParseResult = Parsed(command: Command) | Failed(error: ParseError)

  function ErrorMessage(e: ParseError): string {
    match e
    case QuantityNotPositive => "Quantity must be greater than 0"
    case InvalidQuantityFormat => "Invalid quantity format"
    case InvalidCommandFormat =>
      "Invalid command format. Use: 'Add X [product]', 'Sold X [product]', or 'Delete X [product]'"
  }

  /** The word each pattern starts with; the sell pattern is spelled with "sold". */
  function Verb(a: Action): string {
    match a
    case Add => "add"
    case Sell => "sold"
    case Delete => "delete"
  }

  /** The patterns in the order the dictionary lists them. */
  const PatternOrder: seq<Action> := [Add, Sell, Delete]

  /** Length of the run of `\s` characters starting at `i`. */
  function SpaceRun(t: string, i: nat): (n: nat)
    requires i <= |t|
    ensures i + n <= |t|
    ensures forall j :: i <= j < i + n ==> IsSpace(t[j])
    ensures i + n < |t| ==> !IsSpace(t[i + n])
    decreases |t| - i
  {
    if i == |t| || !IsSpace(t[i]) then 0 else 1 + SpaceRun(t, i + 1)
  }

  /** Length of the run of `\d` characters starting at `i`. */
  function DigitRun(t: string, i: nat): (n: nat)
    requires i <= |t|
    ensures i + n <= |t|
    ensures forall j :: i <= j < i + n ==> IsDigit(t[j])
    ensures i + n < |t| ==> !IsDigit(t[i + n])
    decreases |t| - i
  {
    if i == |t| || !IsDigit(t[i]) then 0 else 1 + DigitRun(t, i + 1)
  }

  /** Where a greedy `.+` starting at `s` stops: the first newline at or after `s`, or the end. */
  function LineEnd(t: string, s: nat): (e: nat)
    requires s <= |t|
    ensures s <= e <= |t|
    ensures forall j :: s <= j < e ==> t[j] != '\n'
    ensures e == |t| || t[e] == '\n'
    decreases |t| - s
  {
    if s == |t| || t[s] == '\n' then s else LineEnd(t, s + 1)
  }

  /**
   * Where `(.+)` starts after a run of `k` spaces beginning at `r`: the second `\s+`
   * first takes all `k` of them and gives them back one at a time until `.` can match
   * the next character, i.e. the last position in `r+1 .. r+k` holding a non-newline.
   */
  function RestStart(t: string, r: nat, k: nat): (s: Option<nat>)
    requires r + k <= |t|
    ensures s.Some? ==> r < s.value <= r + k && s.value < |t| && t[s.value] != '\n'
    ensures s.Some? ==> forall j :: s.value < j <= r + k && j < |t| ==> t[j] == '\n'
    ensures s.None? ==> forall j :: r < j <= r + k && j < |t| ==> t[j] == '\n'
  {
    if k == 0 then None
    else if r + k < |t| && t[r + k] != '\n' then Some(r + k)
    else RestStart(t, r, k - 1)
  }

  /** The two captured groups: the quantity digits and the product text. */
  datatype Groups = Groups(digits: string, rest: string)

  /**
   * One way for `verb\s+(\d+)\s+(.+)` to match a prefix of `t`: spaces on
   * `[|verb|, q)`, digits on `[q, r)`, spaces on `[r, s)` and the greedy `.+` on
   * `[s, e)`, which stops only at a newline or at the end.
   */
  predicate MatchAt(t: string, verb: string, q: int, r: int, s: int, e: int) {
    && StartsWith(t, verb)
    && |verb| < q < r < s < e <= |t|
    && (forall j :: |verb| <= j < q ==> IsSpace(t[j]))
    && (forall j :: q <= j < r ==> IsDigit(t[j]))
    && (forall j :: r <= j < s ==> IsSpace(t[j]))
    && (forall j :: s <= j < e ==> t[j] != '\n')
    && (e == |t| || t[e] == '\n')
  }

  /** The groups once `(\d+)` has been matched on `[q, r)`: the second `\s+` and `(.+)`. */
  function MatchProduct(t: string, q: nat, r: nat): Option<Groups>
    requires q <= r <= |t|
  {
    match RestStart(t, r, SpaceRun(t, r))
    case None => None
    case Some(s) => Some(Groups(t[q..r], t[s..LineEnd(t, s)]))
  }

  /** Where `verb\s+(\d+)` matches: the digits of the first group span `[q, r)`. */
  function DigitsSpan(t: string, verb: string): (span: Option<(nat, nat)>)
    ensures span.Some? ==> |verb| < span.value.0 < span.value.1 <= |t|
  {
    if !StartsWith(t, verb) then None
    else
      var w1 := SpaceRun(t, |verb|);
      if w1 == 0 then None
      else
        var q := |verb| + w1;
        var d := DigitRun(t, q);
        if d == 0 then None else Some((q, q + d))
  }

  /** `re.match(verb + r"\s+(\d+)\s+(.+)", t)`: the match Python's backtracking engine finds. */
  function MatchPattern(t: string, verb: string): (m: Option<Groups>)
    ensures m.Some? ==> forall j :: 0 <= j < |m.value.digits| ==> IsDigit(m.value.digits[j])
  {
    match DigitsSpan(t, verb)
    case None => None
    case Some((q, r)) => MatchProduct(t, q, r)
  }

  lemma MatchPatternUnfold(t: string, verb: string, q: nat, r: nat)
    requires StartsWith(t, verb) && |verb| < q < r <= |t|
    requires SpaceRun(t, |verb|) == q - |verb| && DigitRun(t, q) == r - q
    ensures MatchPattern(t, verb) == MatchProduct(t, q, r)
  {
    assert DigitsSpan(t, verb) == Some((q, r));
  }

  /**
   * The positions of a match found by `MatchPattern`: the spaces after the verb end
   * at `q`, the digits at `r`, and the product group spans `[s, e)`.
   */
  lemma MatchPatternShape(t: string, verb: string) returns (q: nat, r: nat, s: nat, e: nat)
    requires MatchPattern(t, verb).Some?
    ensures StartsWith(t, verb) && q == |verb| + SpaceRun(t, |verb|) && |verb| < q
    ensures r == q + DigitRun(t, q) && q < r <= |t|
    ensures RestStart(t, r, SpaceRun(t, r)) == Some(s) && e == LineEnd(t, s)
    ensures MatchPattern(t, verb) == Some(Groups(t[q..r], t[s..e]))
  {
    q := |verb| + SpaceRun(t, |verb|);
    r := q + DigitRun(t, q);
    assert DigitsSpan(t, verb) == Some((q, r));
    s := RestStart(t, r, SpaceRun(t, r)).value;
    e := LineEnd(t, s);
  }

  /** Whatever `MatchPattern` returns is a genuine match of the pattern. */
  lemma MatchPatternSound(t: string, verb: string)
    requires MatchPattern(t, verb).Some?
    ensures exists q, r, s, e ::
      MatchAt(t, verb, q, r, s, e) && MatchPattern(t, verb) == Some(Groups(t[q..r], t[s..e]))
  {
    var q, r, s, e := MatchPatternShape(t, verb);
    assert MatchAt(t, verb, q, r, s, e);
  }

  /** A run of exactly `n` spaces, followed by a non-space or the end. */
  lemma {:induction false} SpaceRunExact(t: string, i: nat, n: nat)
    requires i + n <= |t|
    requires forall j :: i <= j < i + n ==> IsSpace(t[j])
    requires i + n == |t| || !IsSpace(t[i + n])
    ensures SpaceRun(t, i) == n
    decreases n
  {
    if n > 0 {
      SpaceRunExact(t, i + 1, n - 1);
    }
  }

  lemma {:induction false} SpaceRunAtLeast(t: string, i: nat, n: nat)
    requires i + n <= |t|
    requires forall j :: i <= j < i + n ==> IsSpace(t[j])
    ensures SpaceRun(t, i) >= n
    decreases n
  {
    if n > 0 {
      SpaceRunAtLeast(t, i + 1, n - 1);
    }
  }

  lemma {:induction false} DigitRunExact(t: string, i: nat, n: nat)
    requires i + n <= |t|
    requires forall j :: i <= j < i + n ==> IsDigit(t[j])
    requires i + n == |t| || !IsDigit(t[i + n])
    ensures DigitRun(t, i) == n
    decreases n
  {
    if n > 0 {
      DigitRunExact(t, i + 1, n - 1);
    }
  }

  /**
   * Whenever the pattern can match at all, `MatchPattern` finds a match; its quantity
   * digits are those of every other match, and its product text starts no earlier.
   */
  lemma MatchPatternComplete(t: string, verb: string, q: int, r: int, s: int, e: int)
    requires MatchAt(t, verb, q, r, s, e)
    ensures exists s', e' ::
      s <= s' && MatchAt(t, verb, q, r, s', e') && MatchPattern(t, verb) == Some(Groups(t[q..r], t[s'..e']))
  {
    var p := |verb|;
    SpaceRunExact(t, p, q - p);
    DigitRunExact(t, q, r - q);
    SpaceRunAtLeast(t, r, s - r);
    var st := RestStart(t, r, SpaceRun(t, r));
    assert t[s] != '\n';
    assert st.Some?;
    var s' := st.value;
    var e' := LineEnd(t, s');
    assert MatchProduct(t, q, r) == Some(Groups(t[q..r], t[s'..e']));
    MatchPatternUnfold(t, verb, q, r);
    assert MatchAt(t, verb, q, r, s', e');
  }

  /**
   * What happens once the pattern of `a` matched: convert the digit group with `int()`,
   * which raises `ValueError` on more than `MaxStrDigits` digits, check the quantity,
   * strip the product.
   */
  function Interpret(a: Action, g: Groups): ParseResult
    requires forall j :: 0 <= j < |g.digits| ==> IsDigit(g.digits[j])
  {
    if |g.digits| > MaxStrDigits then Failed(InvalidQuantityFormat)
    else
      var quantity := DecimalValue(g.digits);
      if quantity <= 0 then Failed(QuantityNotPositive)
      else Parsed(Command(a, quantity, Strip(g.rest)))
  }

  /** The loop over the patterns: the first one that matches decides the result. */
  function TryPatterns(t: string, actions: seq<Action>): ParseResult {
    if actions == [] then Failed(InvalidCommandFormat)
    else
      match MatchPattern(t, Verb(actions[0]))
      case Some(g) => Interpret(actions[0], g)
      case None => TryPatterns(t, actions[1..])
  }

  /** The text the patterns are matched against: `text.lower().strip()`. */
  function Canonical(text: string): string {
    Strip(Lower(text))
  }

  /** `parse_inventory_command(text)`. */
  function Parse(text: string): ParseResult {
    TryPatterns(Canonical(text), PatternOrder)
  }

  /** The action whose verb begins `t`, if any; the three verbs begin with different letters. */
  function LeadingVerb(t: string): (a: Option<Action>)
    ensures a.Some? ==> StartsWith(t, Verb(a.value))
    ensures a.None? ==> forall b: Action :: !StartsWith(t, Verb(b))
  {
    if StartsWith(t, "add") then Some(Add)
    else if StartsWith(t, "sold") then Some(Sell)
    else if StartsWith(t, "delete") then Some(Delete)
    else None
  }

  /** The verbs begin with different letters, so the one that begins `t` is unique. */
  lemma LeadingVerbOf(t: string, a: Action)
    requires StartsWith(t, Verb(a))
    ensures LeadingVerb(t) == Some(a)
  {
    assert t[0] == Verb(a)[0];
  }

  /** What the pattern of `a` alone makes of `t`. */
  function Outcome(t: string, a: Action): ParseResult {
    match MatchPattern(t, Verb(a))
    case None => Failed(InvalidCommandFormat)
    case Some(g) => Interpret(a, g)
  }

  /** The loop over the patterns, case by case on the verb that begins `t`. */
  lemma TryPatternsCases(t: string)
    ensures LeadingVerb(t).None? ==> TryPatterns(t, PatternOrder) == Failed(InvalidCommandFormat)
    ensures LeadingVerb(t).Some? ==> TryPatterns(t, PatternOrder) == Outcome(t, LeadingVerb(t).value)
  {
    if StartsWith(t, "add") {
      assert t[0] == 'a';
      assert !StartsWith(t, "sold") && !StartsWith(t, "delete");
      assert TryPatterns(t, [Delete]) == Failed(InvalidCommandFormat);
      assert TryPatterns(t, [Sell, Delete]) == Failed(InvalidCommandFormat);
    } else if StartsWith(t, "sold") {
      assert t[0] == 's';
      assert !StartsWith(t, "delete");
      assert TryPatterns(t, [Delete]) == Failed(InvalidCommandFormat);
      assert TryPatterns(t, [Sell, Delete]) == Outcome(t, Sell);
    } else if StartsWith(t, "delete") {
      assert TryPatterns(t, [Delete]) == Outcome(t, Delete);
      assert TryPatterns(t, [Sell, Delete]) == Outcome(t, Delete);
    } else {
      assert TryPatterns(t, [Delete]) == Failed(InvalidCommandFormat);
      assert TryPatterns(t, [Sell, Delete]) == Failed(InvalidCommandFormat);
    }
  }

  /**
   * The order of the patterns is irrelevant in effect: the result is decided by the
   * one verb that begins the canonical text, or is the format error when none does.
   */
  lemma ParseCases(text: string)
    ensures LeadingVerb(Canonical(text)).None? ==> Parse(text) == Failed(InvalidCommandFormat)
    ensures LeadingVerb(Canonical(text)).Some? ==>
      Parse(text) == Outcome(Canonical(text), LeadingVerb(Canonical(text)).value)
  {
    TryPatternsCases(Canonical(text));
  }

  /**
   * In a text without trailing whitespace a run of spaces stops at a non-space, so
   * the second `\s+` keeps the whole run and `(.+)` starts right after it.
   */
  lemma ProductStart(t: string, r: nat, s: nat)
    requires r <= |t|
    requires t == [] || !IsSpace(t[|t| - 1])
    requires RestStart(t, r, SpaceRun(t, r)) == Some(s)
    ensures s == r + SpaceRun(t, r) < |t| && !IsSpace(t[s])
  {
    var k := SpaceRun(t, r);
    assert r + k < |t|;
    assert RestStart(t, r, k) == Some(r + k);
  }

  /** The product text is the stripped group: non-empty when the group starts with a non-space. */
  lemma StrippedProduct(t: string, s: nat, e: nat)
    requires s < e <= |t| && !IsSpace(t[s])
    requires forall j :: s <= j < e ==> t[j] != '\n'
    ensures var p := Strip(t[s..e]);
      && p != [] && !IsSpace(p[0]) && !IsSpace(p[|p| - 1])
      && (forall j :: 0 <= j < |p| ==> p[j] != '\n')
  {
    var rest := t[s..e];
    assert rest[0] == t[s];
    var p := Strip(rest);
    forall j | 0 <= j < |p| ensures p[j] != '\n' {
      assert p[j] == rest[LeadingSpaces(rest) + j] == t[s + LeadingSpaces(rest) + j];
    }
  }

  /** On a text without trailing whitespace the product group starts with a non-space. */
  lemma TrimmedMatch(t: string, verb: string) returns (q: int, r: int, s: int, e: int)
    requires t == [] || !IsSpace(t[|t| - 1])
    requires MatchPattern(t, verb).Some?
    ensures MatchAt(t, verb, q, r, s, e)
    ensures MatchPattern(t, verb) == Some(Groups(t[q..r], t[s..e]))
    ensures !IsSpace(t[s])
  {
    q, r, s, e := MatchPatternShape(t, verb);
    ProductStart(t, r, s);
  }

  /**
   * What a successful parse of the text `t` says: the quantity is positive and the
   * product is never empty, has no surrounding whitespace and holds no newline; and
   * some match of the verb's pattern on `t` has a digit group of at most `MaxStrDigits`
   * digits whose value is the quantity, and the product as its stripped product group.
   */
  ghost predicate IsMatchOf(t: string, c: Command) {
    && c.quantity > 0
    && c.product != []
    && !IsSpace(c.product[0]) && !IsSpace(c.product[|c.product| - 1])
    && (forall j :: 0 <= j < |c.product| ==> c.product[j] != '\n')
    && (exists q, r, s, e ::
          MatchAt(t, Verb(c.action), q, r, s, e) && r - q <= MaxStrDigits
          && c.quantity == DecimalValue(t[q..r])
          && c.product == Strip(t[s..e]))
  }

  /** A command built from a match's groups is a match of that command, as `IsMatchOf` says. */
  lemma IsMatchOfGroups(t: string, a: Action, g: Groups, c: Command, q: int, r: int, s: int, e: int)
    requires MatchAt(t, Verb(a), q, r, s, e) && g == Groups(t[q..r], t[s..e])
    requires forall j :: 0 <= j < |g.digits| ==> IsDigit(g.digits[j])
    requires |g.digits| <= MaxStrDigits
    requires c == Command(a, DecimalValue(g.digits), Strip(g.rest)) && c.quantity > 0
    requires var p := Strip(g.rest);
      && p != [] && !IsSpace(p[0]) && !IsSpace(p[|p| - 1])
      && (forall j :: 0 <= j < |p| ==> p[j] != '\n')
    ensures IsMatchOf(t, c)
  {
  }

  /** The command `Outcome` returns once the pattern matched with groups `g`. */
  lemma OutcomeOfGroups(t: string, a: Action, g: Groups, c: Command)
    requires MatchPattern(t, Verb(a)) == Some(g) && Outcome(t, a) == Parsed(c)
    ensures forall j :: 0 <= j < |g.digits| ==> IsDigit(g.digits[j])
    ensures |g.digits| <= MaxStrDigits
    ensures c == Command(a, DecimalValue(g.digits), Strip(g.rest)) && c.quantity > 0
  {
  }

  /** What `Outcome` makes of a text without trailing whitespace, when it succeeds. */
  lemma OutcomeIsMatch(t: string, a: Action, c: Command)
    requires t == [] || !IsSpace(t[|t| - 1])
    requires Outcome(t, a) == Parsed(c)
    ensures c.action == a && IsMatchOf(t, c)
  {
    var q, r, s, e := TrimmedMatch(t, Verb(a));
    var g := Groups(t[q..r], t[s..e]);
    StrippedProduct(t, s, e);
    OutcomeOfGroups(t, a, g, c);
    IsMatchOfGroups(t, a, g, c, q, r, s, e);
  }

  /**
   * A successful parse is a match of the command's verb pattern on the lower-cased,
   * stripped text, as `IsMatchOf` says.
   */
  lemma ParsedIsMatch(text: string)
    requires Parse(text).Parsed?
    ensures IsMatchOf(Canonical(text), Parse(text).command)
  {
    ParsedCommandIsMatch(text, Canonical(text), Parse(text).command);
  }

  lemma ParsedCommandIsMatch(text: string, t: string, c: Command)
    requires t == Canonical(text) && Parse(text) == Parsed(c)
    ensures IsMatchOf(t, c)
  {
    var a := ParsedOutcome(text, t, c);
    OutcomeIsMatch(t, a, c);
  }

  /** A successful parse is the outcome of the pattern of the verb that begins the text. */
  lemma ParsedOutcome(text: string, t: string, c: Command) returns (a: Action)
    requires t == Canonical(text) && Parse(text) == Parsed(c)
    ensures Outcome(t, a) == Parsed(c)
  {
    ParseCases(text);
    a := LeadingVerb(t).value;
  }

  /**
   * Whenever the canonical text matches the pattern of `a`, `Parse` returns that
   * action's outcome: the format error when the digit group is longer than `int()`
   * reads, the quantity error when it is all zeros, otherwise the command with that
   * action and the group's value as quantity.
   */
  lemma MatchedIsParsed(text: string, a: Action, q: int, r: int, s: int, e: int)
    requires MatchAt(Canonical(text), Verb(a), q, r, s, e)
    ensures r - q > MaxStrDigits ==> Parse(text) == Failed(InvalidQuantityFormat)
    ensures r - q <= MaxStrDigits && DecimalValue(Canonical(text)[q..r]) == 0 ==>
      Parse(text) == Failed(QuantityNotPositive)
    ensures r - q <= MaxStrDigits && DecimalValue(Canonical(text)[q..r]) > 0 ==>
      Parse(text).Parsed? && Parse(text).command.action == a
      && Parse(text).command.quantity == DecimalValue(Canonical(text)[q..r])
  {
    var t := Canonical(text);
    MatchPatternComplete(t, Verb(a), q, r, s, e);
    var s', e' :| s <= s' && MatchAt(t, Verb(a), q, r, s', e')
      && MatchPattern(t, Verb(a)) == Some(Groups(t[q..r], t[s'..e']));
    ParseIsOutcome(text, t, a);
    OutcomeOfGroupsCases(t, a, Groups(t[q..r], t[s'..e']));
  }

  /** Once the canonical text begins with the verb of `a`, `Parse` is that pattern's outcome. */
  lemma ParseIsOutcome(text: string, t: string, a: Action)
    requires t == Canonical(text) && StartsWith(t, Verb(a))
    ensures Parse(text) == Outcome(t, a)
  {
    ParseCases(text);
    LeadingVerbOf(t, a);
  }

  /** What `Outcome` makes of the groups `g`: by the length of the digit group, then by its value. */
  lemma OutcomeOfGroupsCases(t: string, a: Action, g: Groups)
    requires MatchPattern(t, Verb(a)) == Some(g)
    ensures |g.digits| > MaxStrDigits ==> Outcome(t, a) == Failed(InvalidQuantityFormat)
    ensures |g.digits| <= MaxStrDigits && DecimalValue(g.digits) == 0 ==> Outcome(t, a) == Failed(QuantityNotPositive)
    ensures |g.digits| <= MaxStrDigits && DecimalValue(g.digits) > 0 ==>
      Outcome(t, a) == Parsed(Command(a, DecimalValue(g.digits), Strip(g.rest)))
  {
  }

  /** The pattern `verb` matches `t` with a digit group longer than `int()` reads. */
  predicate LongDigitGroup(t: string, verb: string) {
    MatchPattern(t, verb).Some? && |MatchPattern(t, verb).value.digits| > MaxStrDigits
  }

  /**
   * The ValueError handler runs exactly when a verb begins the canonical text and its
   * pattern matches with a digit group of more than `MaxStrDigits` digits: `\d+` only
   * captures digits, so the length limit is the only way `int()` can fail.
   */
  lemma InvalidQuantityFormatIff(text: string)
    ensures Parse(text) == Failed(InvalidQuantityFormat) <==>
      exists a: Action :: StartsWith(Canonical(text), Verb(a)) && LongDigitGroup(Canonical(text), Verb(a))
  {
    var t := Canonical(text);
    ParseCases(text);
    if LeadingVerb(t).Some? {
      var a := LeadingVerb(t).value;
      OutcomeFormatError(t, a);
      forall b: Action | StartsWith(t, Verb(b))
        ensures b == a
      {
        LeadingVerbOf(t, b);
      }
    }
  }

  /** The pattern of `a` alone gives the format error exactly on an over-long digit group. */
  lemma OutcomeFormatError(t: string, a: Action)
    ensures Outcome(t, a) == Failed(InvalidQuantityFormat) <==> LongDigitGroup(t, Verb(a))
  {
    match MatchPattern(t, Verb(a))
    case None =>
    case Some(g) => OutcomeOfGroupsCases(t, a, g);
  }

  /** Letter case never matters: texts equal up to case parse identically. */
  lemma ParseIgnoresCase(a: string, b: string)
    requires Lower(a) == Lower(b)
    ensures Parse(a) == Parse(b)
  {
  }

  lemma {:induction false} LineEndExact(t: string, s: nat)
    requires s <= |t|
    requires forall j :: s <= j < |t| ==> t[j] != '\n'
    ensures LineEnd(t, s) == |t|
    decreases |t| - s
  {
    if s < |t| {
      LineEndExact(t, s + 1);
    }
  }

  /** Where the parts of `verb quantity product`, with single spaces, sit in the text. */
  lemma FormLayout(t: string, v: string, digits: string, product: string)
    requires t == v + " " + digits + " " + product
    requires digits != [] && forall j :: 0 <= j < |digits| ==> IsDigit(digits[j])
    requires product != [] && !IsSpace(product[0])
    requires forall j :: 0 <= j < |product| ==> product[j] != '\n'
    ensures StartsWith(t, v) && |t| == |v| + |digits| + |product| + 2
    ensures t[|v|] == ' ' && t[|v| + 1 + |digits|] == ' ' && !IsSpace(t[|v| + 2 + |digits|])
    ensures forall j :: |v| + 1 <= j < |v| + 1 + |digits| ==> IsDigit(t[j])
    ensures forall j :: |v| + 2 + |digits| <= j < |t| ==> t[j] != '\n'
    ensures t[|v| + 1..|v| + 1 + |digits|] == digits && t[|v| + 2 + |digits|..] == product
  {
    var q := |v| + 1;
    var r := q + |digits|;
    assert t[r + 1] == product[0];
    assert forall j :: q <= j < r ==> t[j] == digits[j - q];
    assert forall j :: r + 1 <= j < |t| ==> t[j] == product[j - r - 1];
  }

  /** The runs `MatchPattern` measures on a text laid out as `FormLayout` says. */
  lemma FormRuns(t: string, v: string, q: nat, r: nat)
    requires StartsWith(t, v) && q == |v| + 1 && q < r && r + 1 < |t|
    requires t[|v|] == ' ' && t[r] == ' ' && !IsSpace(t[r + 1])
    requires forall j :: q <= j < r ==> IsDigit(t[j])
    requires forall j :: r + 1 <= j < |t| ==> t[j] != '\n'
    ensures SpaceRun(t, |v|) == 1 && DigitRun(t, q) == r - q
    ensures MatchProduct(t, q, r) == Some(Groups(t[q..r], t[r + 1..]))
  {
    SpaceRunExact(t, |v|, 1);
    DigitRunExact(t, q, r - q);
    SpaceRunExact(t, r, 1);
    LineEndExact(t, r + 1);
    assert t[r + 1] != '\n';
    assert RestStart(t, r, SpaceRun(t, r)) == Some(r + 1);
    assert t[r + 1..LineEnd(t, r + 1)] == t[r + 1..];
  }

  /** The pattern of `a` on `verb quantity product`, with single spaces. */
  lemma OutcomeOfForm(t: string, a: Action, digits: string, product: string)
    requires t == Verb(a) + " " + digits + " " + product
    requires digits != [] && forall j :: 0 <= j < |digits| ==> IsDigit(digits[j])
    requires product != [] && !IsSpace(product[0])
    requires forall j :: 0 <= j < |product| ==> product[j] != '\n'
    ensures LeadingVerb(t) == Some(a)
    ensures MatchPattern(t, Verb(a)) == Some(Groups(digits, product))
  {
    var v := Verb(a);
    var r := |v| + 1 + |digits|;
    FormLayout(t, v, digits, product);
    FormRuns(t, v, |v| + 1, r);
    MatchPatternUnfold(t, v, |v| + 1, r);
    LeadingVerbOf(t, a);
  }

  /**
   * The parse of a text whose canonical form is `verb quantity product`, with single
   * spaces, a digit group and a product without surrounding whitespace or newlines.
   */
  lemma ParseOfCanonicalForm(text: string, a: Action, digits: string, product: string)
    requires Canonical(text) == Verb(a) + " " + digits + " " + product
    requires digits != [] && forall j :: 0 <= j < |digits| ==> IsDigit(digits[j])
    requires product != [] && !IsSpace(product[0]) && !IsSpace(product[|product| - 1])
    requires forall j :: 0 <= j < |product| ==> product[j] != '\n'
    ensures |digits| > MaxStrDigits ==> Parse(text) == Failed(InvalidQuantityFormat)
    ensures |digits| <= MaxStrDigits && DecimalValue(digits) > 0 ==>
      Parse(text) == Parsed(Command(a, DecimalValue(digits), product))
    ensures |digits| <= MaxStrDigits && DecimalValue(digits) == 0 ==> Parse(text) == Failed(QuantityNotPositive)
  {
    OutcomeOfForm(Canonical(text), a, digits, product);
    StripOfTrimmed(product);
    ParseCases(text);
  }

  /** `ParseOfCanonicalForm` stated on the lower-cased text, before stripping. */
  lemma ParseOfLowerForm(text: string, a: Action, digits: string, n: nat, product: string)
    requires Lower(text) == Verb(a) + " " + digits + " " + product
    requires digits != [] && forall j :: 0 <= j < |digits| ==> IsDigit(digits[j])
    requires DecimalValue(digits) == n
    requires product != [] && !IsSpace(product[0]) && !IsSpace(product[|product| - 1])
    requires forall j :: 0 <= j < |product| ==> product[j] != '\n'
    ensures |digits| > MaxStrDigits ==> Parse(text) == Failed(InvalidQuantityFormat)
    ensures |digits| <= MaxStrDigits && n > 0 ==> Parse(text) == Parsed(Command(a, n, product))
    ensures |digits| <= MaxStrDigits && n == 0 ==> Parse(text) == Failed(QuantityNotPositive)
  {
    var l := Lower(text);
    assert l[0] == Verb(a)[0] && l[|l| - 1] == product[|product| - 1];
    StripOfTrimmed(l);
    ParseOfCanonicalForm(text, a, digits, product);
  }

  /** Where the parts of `verb digits rest`, with one space, sit in the text. */
  lemma ShortFormLayout(t: string, v: string, digits: string, rest: string)
    requires t == v + " " + digits + rest
    requires v != [] && rest != []
    ensures StartsWith(t, v) && |t| == |v| + 1 + |digits| + |rest|
    ensures t[0] == v[0] && t[|v|] == ' ' && t[|v| + 1 + |digits|] == rest[0]
    ensures t[|t| - 1] == rest[|rest| - 1]
    ensures forall j :: |v| + 1 <= j < |v| + 1 + |digits| ==> t[j] == digits[j - |v| - 1]
  {
  }

  /** A verb, one space and a digit run (possibly empty) followed by neither a digit nor a space. */
  lemma NoMatchAfterDigits(t: string, v: string, r: nat)
    requires StartsWith(t, v) && |v| < r < |t|
    requires t[|v|] == ' ' && forall j :: |v| + 1 <= j < r ==> IsDigit(t[j])
    requires !IsDigit(t[r]) && !IsSpace(t[r])
    ensures MatchPattern(t, v) == None
  {
    SpaceRunExact(t, |v|, 1);
    DigitRunExact(t, |v| + 1, r - |v| - 1);
    SpaceRunExact(t, r, 0);
  }

  /** The pattern of `a` on `verb digits rest`, when `rest` starts with neither a digit nor a space. */
  lemma OutcomeOfShortForm(t: string, a: Action, digits: string, rest: string)
    requires t == Verb(a) + " " + digits + rest
    requires forall j :: 0 <= j < |digits| ==> IsDigit(digits[j])
    requires rest != [] && !IsDigit(rest[0]) && !IsSpace(rest[0]) && !IsSpace(rest[|rest| - 1])
    ensures !IsSpace(t[0]) && !IsSpace(t[|t| - 1])
    ensures LeadingVerb(t) == Some(a) && MatchPattern(t, Verb(a)) == None
  {
    var v := Verb(a);
    ShortFormLayout(t, v, digits, rest);
    NoMatchAfterDigits(t, v, |v| + 1 + |digits|);
    LeadingVerbOf(t, a);
  }

  /**
   * A verb followed by one space and then a digit group (possibly empty) that is not
   * followed by whitespace does not match: `\s+` or `\d+` has nothing to take.
   */
  lemma RejectedAfterDigits(text: string, a: Action, digits: string, rest: string)
    requires Lower(text) == Verb(a) + " " + digits + rest
    requires forall j :: 0 <= j < |digits| ==> IsDigit(digits[j])
    requires rest != [] && !IsDigit(rest[0]) && !IsSpace(rest[0]) && !IsSpace(rest[|rest| - 1])
    ensures Parse(text) == Failed(InvalidCommandFormat)
  {
    OutcomeOfShortForm(Lower(text), a, digits, rest);
    StripOfTrimmed(Lower(text));
    ParseCases(text);
  }

  /** A text whose lower-cased, stripped form starts with none of the verbs is rejected. */
  lemma RejectedWithoutVerb(text: string)
    requires LeadingVerb(Strip(Lower(text))) == None
    ensures Parse(text) == Failed(InvalidCommandFormat)
  {
    ParseCases(text);
  }

  /** `get_command_examples()`. */
  function CommandExamples(): seq<string> {
    [ "Add 10 packets of milk",
      "Sold 5 soaps",
      "Delete 2 bottles of oil",
      "Add 25 apples",
      "Sold 3 bottles of water",
      "Delete 1 chocolate bar" ]
  }
}
