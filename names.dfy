/**
 * `normalize_product_name` (src/backend/inventory_routes.py), the canonical form the
 * bulk import uses to recognise a product it has already seen: lower-case, strip,
 * drop one plural ending, delete every character other than `a-z`, `0-9` and
 * whitespace, then turn each whitespace run into one space and strip again.
 *
 * The plural endings are tried in the order "s", "es", "ies", "ves" and the loop stops
 * at the first that matches. Every one of them ends in "s", so "s" always wins: the
 * "ies" and "ves" rewrites never run, and a name loses at most one trailing "s"
 * ("Knives" becomes "knive").
 */
module ProductNames {
  import opened Text

  /** The endings the loop tries, in its order. */
  const PluralEndings: seq<string> := ["s", "es", "ies", "ves"]

  /** What the loop does to a name ending in `ending`. */
  function ReplaceEnding(s: string, ending: string): string
    requires EndsWith(s, ending)
  {
    if ending == "ies" then s[..|s| - 3] + "y"
    else if ending == "ves" then s[..|s| - 3] + "f"
    else s[..|s| - |ending|]
  }

  /** A string ending in a non-empty suffix ends in that suffix's last character. */
  lemma EndsWithLast(s: string, e: string)
    requires e != [] && EndsWith(s, e)
    ensures s != [] && s[|s| - 1] == e[|e| - 1]
  {
    assert s[|s| - |e|..][|e| - 1] == s[|s| - 1];
  }

  /** A non-empty string ends in "s" exactly when its last character is 's'. */
  lemma EndsWithS(s: string)
    requires s != []
    ensures EndsWith(s, "s") <==> s[|s| - 1] == 's'
  {
    if s[|s| - 1] == 's' {
      assert s[|s| - 1..] == "s";
    }
  }

  /** A name ending in any of the later endings already ends in "s", so the loop never reaches them with a match. */
  lemma LaterEndingsUnreachable(s: string, i: int)
    requires 1 <= i < |PluralEndings| && EndsWith(s, PluralEndings[i])
    ensures EndsWith(s, "s")
  {
    var e := PluralEndings[i];
    assert e == "es" || e == "ies" || e == "ves";
    assert e[|e| - 1] == 's';
    EndsWithLast(s, e);
    EndsWithS(s);
  }

  /** The reference meaning of the suffix loop: drop one trailing "s", if there is one. */
  function DropPlural(s: string): (r: string)
    ensures EndsWith(s, "s") ==> s == r + "s"
    ensures !EndsWith(s, "s") ==> r == s
  {
    if EndsWith(s, "s") then s[..|s| - 1] else s
  }

  predicate Allowed(c: char) { IsLowerAlnum(c) || IsSpace(c) }

  /**
   * `re.sub(r'[^a-z0-9\s]', '', s)`: keep only the allowed characters, in order. Every
   * allowed character is kept as often as it occurs; `KeepAllowedAppend` says the order
   * is kept.
   */
  function KeepAllowed(s: string): (r: string)
    ensures |r| <= |s|
    ensures forall i :: 0 <= i < |r| ==> Allowed(r[i])
    ensures forall c :: Allowed(c) ==> multiset(r)[c] == multiset(s)[c]
    ensures (forall i :: 0 <= i < |s| ==> Allowed(s[i])) ==> r == s
  {
    if s == [] then []
    else
      assert s == [s[0]] + s[1..];
      if Allowed(s[0]) then [s[0]] + KeepAllowed(s[1..])
      else KeepAllowed(s[1..])
  }

  /** Filtering distributes over concatenation: the kept characters stay in their order. */
  lemma {:induction false} KeepAllowedAppend(a: string, b: string)
    ensures KeepAllowed(a + b) == KeepAllowed(a) + KeepAllowed(b)
    decreases |a|
  {
    if a == [] {
      assert a + b == b;
    } else {
      assert (a + b)[0] == a[0] && (a + b)[1..] == a[1..] + b;
      KeepAllowedAppend(a[1..], b);
    }
  }

  /** The characters of `s` that are not whitespace, in order. */
  function NonSpace(s: string): string {
    if s == [] then []
    else if IsSpace(s[0]) then NonSpace(s[1..])
    else [s[0]] + NonSpace(s[1..])
  }

  /** No whitespace other than ' ' and no two spaces side by side. */
  predicate SingleSpaced(s: string) {
    && (forall i :: 0 <= i < |s| ==> IsSpace(s[i]) ==> s[i] == ' ')
    && (forall i :: 0 <= i < |s| - 1 ==> !(s[i] == ' ' && s[i + 1] == ' '))
  }

  /** `re.sub(r'\s+', ' ', s)`: every maximal whitespace run becomes a single space. */
  function CollapseSpaces(s: string): (r: string)
    ensures SingleSpaced(r)
    ensures NonSpace(r) == NonSpace(s)
    ensures (r != [] && r[0] == ' ') <==> (s != [] && IsSpace(s[0]))
    ensures |r| <= |s|
    decreases |s|
  {
    if s == [] then []
    else if IsSpace(s[0]) then
      var n := LeadingSpaces(s);
      NonSpaceSkipsRun(s, n);
      " " + CollapseSpaces(s[n..])
    else [s[0]] + CollapseSpaces(s[1..])
  }

  /** A whole run of whitespace collapses to one space. */
  lemma CollapseRun(w: string)
    requires w != [] && forall i :: 0 <= i < |w| ==> IsSpace(w[i])
    ensures CollapseSpaces(w) == " "
  {
    LeadingSpacesExact(w, |w|);
    assert w[|w|..] == [];
  }

  /** `LeadingSpaces` is the length of the whitespace run that a non-space (or the end) closes. */
  lemma LeadingSpacesExact(s: string, n: nat)
    requires n <= |s| && forall i :: 0 <= i < n ==> IsSpace(s[i])
    requires n < |s| ==> !IsSpace(s[n])
    ensures LeadingSpaces(s) == n
  {
  }

  /** Text after a string that does not end inside a whitespace run leaves its leading run alone. */
  lemma LeadingSpacesAppend(a: string, b: string)
    requires a != [] && (b == [] || !IsSpace(a[|a| - 1]) || !IsSpace(b[0]))
    ensures LeadingSpaces(a + b) == LeadingSpaces(a)
  {
    var n := LeadingSpaces(a);
    var ab := a + b;
    assert forall i :: 0 <= i < n ==> ab[i] == a[i];
    if n < |a| {
      assert ab[n] == a[n];
    } else if b != [] {
      assert IsSpace(a[|a| - 1]);
      assert ab[n] == b[0];
    }
    LeadingSpacesExact(ab, n);
  }

  /** One step of `CollapseSpaces` on a string that starts with a non-space. */
  lemma CollapseNonSpaceHead(s: string)
    requires s != [] && !IsSpace(s[0])
    ensures CollapseSpaces(s) == [s[0]] + CollapseSpaces(s[1..])
  {
  }

  /** One step of `CollapseSpaces` on a string that starts with whitespace. */
  lemma CollapseSpaceHead(s: string)
    requires s != [] && IsSpace(s[0])
    ensures CollapseSpaces(s) == " " + CollapseSpaces(s[LeadingSpaces(s)..])
  {
  }

  /**
   * Collapsing works run by run: it distributes over a concatenation that does not cut
   * a whitespace run in two. With `CollapseRun`, and a non-space character collapsing
   * to itself, this says every maximal run becomes exactly one space.
   */
  lemma {:induction false} CollapseAppend(a: string, b: string)
    requires a == [] || b == [] || !IsSpace(a[|a| - 1]) || !IsSpace(b[0])
    ensures CollapseSpaces(a + b) == CollapseSpaces(a) + CollapseSpaces(b)
    decreases |a|
  {
    if a == [] {
      assert a + b == b;
    } else {
      var head, rest := CollapseFirstStep(a, b);
      CollapseAppend(rest, b);
      ConcatAssociates(head, CollapseSpaces(rest), CollapseSpaces(b));
    }
  }

  /** The first step of `CollapseSpaces` is the same on `a` and on `a + b`. */
  lemma CollapseFirstStep(a: string, b: string) returns (head: string, rest: string)
    requires a != [] && (b == [] || !IsSpace(a[|a| - 1]) || !IsSpace(b[0]))
    ensures |rest| < |a| && (rest == [] || b == [] || !IsSpace(rest[|rest| - 1]) || !IsSpace(b[0]))
    ensures CollapseSpaces(a + b) == head + CollapseSpaces(rest + b)
    ensures CollapseSpaces(a) == head + CollapseSpaces(rest)
  {
    if !IsSpace(a[0]) {
      head, rest := [a[0]], a[1..];
      DropKeepsLast(a, 1);
      CollapseNonSpaceStep(a, b);
    } else {
      head, rest := " ", a[LeadingSpaces(a)..];
      DropKeepsLast(a, LeadingSpaces(a));
      CollapseSpaceStep(a, b);
    }
  }

  lemma CollapseNonSpaceStep(a: string, b: string)
    requires a != [] && !IsSpace(a[0])
    ensures CollapseSpaces(a + b) == [a[0]] + CollapseSpaces(a[1..] + b)
    ensures CollapseSpaces(a) == [a[0]] + CollapseSpaces(a[1..])
  {
    var ab := a + b;
    assert ab[0] == a[0];
    DropOfAppend(a, b, 1);
    CollapseNonSpaceHead(ab);
    CollapseNonSpaceHead(a);
  }

  lemma CollapseSpaceStep(a: string, b: string)
    requires a != [] && IsSpace(a[0]) && (b == [] || !IsSpace(a[|a| - 1]) || !IsSpace(b[0]))
    ensures LeadingSpaces(a) > 0
    ensures CollapseSpaces(a + b) == " " + CollapseSpaces(a[LeadingSpaces(a)..] + b)
    ensures CollapseSpaces(a) == " " + CollapseSpaces(a[LeadingSpaces(a)..])
  {
    var ab := a + b;
    var n := LeadingSpaces(a);
    assert ab[0] == a[0];
    LeadingSpacesAppend(a, b);
    DropOfAppend(a, b, n);
    CollapseSpaceHead(ab);
    CollapseSpaceHead(a);
  }

  lemma DropKeepsLast(a: string, n: nat)
    requires n <= |a|
    ensures a[n..] == [] || a[n..][|a[n..]| - 1] == a[|a| - 1]
  {
  }

  lemma DropOfAppend(a: string, b: string, n: nat)
    requires n <= |a|
    ensures (a + b)[n..] == a[n..] + b
  {
  }

  lemma ConcatAssociates(x: string, y: string, z: string)
    ensures x + (y + z) == (x + y) + z
  {
  }

  /** Skipping a run of whitespace does not change the non-whitespace characters. */
  lemma {:induction false} NonSpaceSkipsRun(s: string, n: nat)
    requires n <= |s| && forall i :: 0 <= i < n ==> IsSpace(s[i])
    ensures NonSpace(s) == NonSpace(s[n..])
  {
    if n > 0 {
      assert s[1..][n - 1..] == s[n..];
      NonSpaceSkipsRun(s[1..], n - 1);
    }
  }

  /** A single-spaced string with no leading space is unchanged by collapsing. */
  lemma {:induction false} CollapseSingleSpaced(s: string)
    requires SingleSpaced(s) && (s == [] || s[0] != ' ')
    ensures CollapseSpaces(s) == s
    decreases |s|
  {
    if s != [] {
      var t := s[1..];
      assert SingleSpaced(t);
      if t != [] && t[0] == ' ' {
        assert s[0] != ' ' && s[1] == ' ';
        assert LeadingSpaces(t) == 1;
        assert t[1..] == [] || t[1..][0] != ' ';
        assert SingleSpaced(t[1..]);
        CollapseSingleSpaced(t[1..]);
        assert CollapseSpaces(t) == " " + t[1..];
      } else {
        CollapseSingleSpaced(t);
      }
    }
  }

  /** The specification of `normalize_product_name`. */
  function Normalized(name: string): string {
    Strip(CollapseSpaces(KeepAllowed(DropPlural(Strip(Lower(name))))))
  }

  /** A normalised name: only `a-z`, `0-9` and single spaces, and no space at either end. */
  predicate Canonical(s: string) {
    && (forall i :: 0 <= i < |s| ==> IsLowerAlnum(s[i]) || s[i] == ' ')
    && (forall i :: 0 <= i < |s| - 1 ==> !(s[i] == ' ' && s[i + 1] == ' '))
    && (s == [] || (s[0] != ' ' && s[|s| - 1] != ' '))
  }

  /** `normalize_product_name(name)`, with the loop over the plural endings. */
  method NormalizeProductName(name: string) returns (normalized: string)
    ensures normalized == Normalized(name)
  {
    normalized := Strip(Lower(name));
    var endings := PluralEndings;
    var i := 0;
    while i < |endings|
      invariant 0 <= i <= |endings|
      invariant normalized == Strip(Lower(name))
      invariant i > 0 ==> !EndsWith(normalized, "s")
    {
      var ending := endings[i];
      if EndsWith(normalized, ending) {
        if i > 0 {
          LaterEndingsUnreachable(normalized, i);
        }
        normalized := ReplaceEnding(normalized, ending);
        break;
      }
      i := i + 1;
    }
    normalized := KeepAllowed(normalized);
    normalized := Strip(CollapseSpaces(normalized));
  }

  /** Every output of the normaliser is canonical. */
  lemma NormalizedIsCanonical(name: string)
    ensures Canonical(Normalized(name))
  {
    CleanedIsCanonical(KeepAllowed(DropPlural(Strip(Lower(name)))));
  }

  /** Collapsing and stripping a string of allowed characters gives a canonical string. */
  lemma CleanedIsCanonical(s: string)
    requires forall i :: 0 <= i < |s| ==> Allowed(s[i])
    ensures Canonical(Strip(CollapseSpaces(s)))
  {
    CleanedCharacters(s);
    CleanedSpacing(CollapseSpaces(s));
  }

  lemma CleanedCharacters(s: string)
    requires forall i :: 0 <= i < |s| ==> Allowed(s[i])
    ensures forall i :: 0 <= i < |Strip(CollapseSpaces(s))| ==>
      IsLowerAlnum(Strip(CollapseSpaces(s))[i]) || Strip(CollapseSpaces(s))[i] == ' '
  {
    var c := CollapseSpaces(s);
    forall k | 0 <= k < |c|
      ensures IsLowerAlnum(c[k]) || c[k] == ' '
    {
      AllowedSurvivesCollapse(s, k);
    }
    StripKeepsClean(c);
  }

  /** Stripping keeps a string made of `a-z`, `0-9` and ' ' made of them. */
  lemma StripKeepsClean(c: string)
    requires forall k :: 0 <= k < |c| ==> IsLowerAlnum(c[k]) || c[k] == ' '
    ensures forall i :: 0 <= i < |Strip(c)| ==> IsLowerAlnum(Strip(c)[i]) || Strip(c)[i] == ' '
  {
    var r := Strip(c);
    var a := LeadingSpaces(c);
    forall i | 0 <= i < |r|
      ensures IsLowerAlnum(r[i]) || r[i] == ' '
    {
      assert r[i] == c[a + i];
    }
  }

  lemma CleanedSpacing(c: string)
    requires SingleSpaced(c)
    ensures forall i :: 0 <= i < |Strip(c)| - 1 ==> !(Strip(c)[i] == ' ' && Strip(c)[i + 1] == ' ')
    ensures Strip(c) == [] || (Strip(c)[0] != ' ' && Strip(c)[|Strip(c)| - 1] != ' ')
  {
    var r := Strip(c);
    var a := LeadingSpaces(c);
    forall i | 0 <= i < |r| - 1
      ensures !(r[i] == ' ' && r[i + 1] == ' ')
    {
      assert r[i] == c[a + i] && r[i + 1] == c[a + i + 1];
    }
  }

  /** Collapsing introduces no character besides those of its input and ' '. */
  lemma {:induction false} AllowedSurvivesCollapse(s: string, k: int)
    requires forall i :: 0 <= i < |s| ==> Allowed(s[i])
    requires 0 <= k < |CollapseSpaces(s)|
    ensures IsLowerAlnum(CollapseSpaces(s)[k]) || CollapseSpaces(s)[k] == ' '
    decreases |s|
  {
    if IsSpace(s[0]) {
      if k > 0 {
        AllowedSurvivesCollapse(s[LeadingSpaces(s)..], k - 1);
      }
    } else if k > 0 {
      AllowedSurvivesCollapse(s[1..], k - 1);
    }
  }

  /** `Normalized` through its stages: lower-case and strip, drop the plural, then clean up. */
  lemma NormalizedStages(name: string, stripped: string, dropped: string)
    requires Strip(Lower(name)) == stripped && DropPlural(stripped) == dropped
    ensures Normalized(name) == Strip(CollapseSpaces(KeepAllowed(dropped)))
  {
  }

  /** A canonical string is left alone by the character clean-up. */
  lemma CanonicalIsClean(s: string)
    requires Canonical(s)
    ensures Strip(CollapseSpaces(KeepAllowed(s))) == s
  {
    CanonicalIsAllowed(s);
    var k := KeepAllowed(s);
    assert k == s;
    CollapseSingleSpaced(s);
    StripOfTrimmed(s);
  }

  lemma CanonicalIsAllowed(s: string)
    requires Canonical(s)
    ensures forall i :: 0 <= i < |s| ==> Allowed(s[i])
    ensures SingleSpaced(s) && (s == [] || s[0] != ' ')
  {
  }

  /** A canonical name with no trailing "s" is its own normal form. */
  lemma CanonicalIsFixed(s: string)
    requires Canonical(s) && !EndsWith(s, "s")
    ensures Normalized(s) == s
  {
    assert forall i :: 0 <= i < |s| ==> !IsUpper(s[i]);
    LowerOfLowerCase(s);
    StripOfTrimmed(s);
    NormalizedStages(s, s, s);
    CanonicalIsClean(s);
  }

  /** Normalising twice is normalising once, unless the first result still ends in "s". */
  lemma NormalizedStable(name: string)
    requires !EndsWith(Normalized(name), "s")
    ensures Normalized(Normalized(name)) == Normalized(name)
  {
    NormalizedIsCanonical(name);
    CanonicalIsFixed(Normalized(name));
  }

  /** Names that agree up to ASCII case normalise alike. */
  lemma NormalizedIgnoresCase(a: string, b: string)
    requires Lower(a) == Lower(b)
    ensures Normalized(a) == Normalized(b)
  {
  }

  /** A non-empty word of the letters `a-z`. */
  predicate IsWord(w: string) {
    w != [] && forall i :: 0 <= i < |w| ==> 'a' <= w[i] <= 'z'
  }

  /** A word is canonical. */
  lemma WordIsCanonical(w: string)
    requires IsWord(w)
    ensures Canonical(w)
  {
  }

  /** A single lower-case word without a trailing "s" normalises to itself. */
  lemma WordIsFixed(w: string)
    requires IsWord(w) && w[|w| - 1] != 's'
    ensures Normalized(w) == w
  {
    WordIsCanonical(w);
    CanonicalIsFixed(w);
  }

  /** The character clean-up leaves a lower-case word as it is. */
  lemma WordIsClean(w: string)
    requires IsWord(w)
    ensures Strip(CollapseSpaces(KeepAllowed(w))) == w
  {
    WordIsCanonical(w);
    CanonicalIsClean(w);
  }

  /** A word plus "s" is stripped already and loses exactly that "s". */
  lemma PluralStages(w: string)
    requires IsWord(w)
    ensures Strip(w + "s") == w + "s" && DropPlural(w + "s") == w
  {
    var t := w + "s";
    assert t[0] == w[0] && t[|t| - 1] == 's';
    StripOfTrimmed(t);
    assert t[..|t| - 1] == w;
  }

  /** A name whose lower-case form is such a word plus "s" normalises to the word. */
  lemma PluralOfWord(name: string, w: string)
    requires IsWord(w)
    requires Lower(name) == w + "s"
    ensures Normalized(name) == w
  {
    PluralStages(w);
    NormalizedStages(name, w + "s", w);
    WordIsClean(w);
  }

  /** A name whose lower-case form is such a word normalises to the word. */
  lemma CaseOfWord(name: string, w: string)
    requires IsWord(w) && w[|w| - 1] != 's'
    requires Lower(name) == w
    ensures Normalized(name) == w
  {
    assert !IsSpace(w[0]) && !IsSpace(w[|w| - 1]);
    StripOfTrimmed(w);
    EndsWithS(w);
    assert DropPlural(w) == w;
    NormalizedStages(name, w, w);
    WordIsClean(w);
  }

  lemma ExampleApples(a: string, b: string)
    requires a == "Apples" && b == "apple"
    ensures Normalized(a) == b
  {
    LowerCapitalised(a);
    assert Lower(a) == b + "s";
    PluralOfWord(a, b);
  }

  lemma ExampleAppleUpper(c: string, b: string)
    requires c == "APPLE" && b == "apple"
    ensures Normalized(c) == b
  {
    assert Lower(c) == b;
    CaseOfWord(c, b);
  }

  lemma ExampleAppleFixed(b: string)
    requires b == "apple"
    ensures Normalized(b) == b
  {
    WordIsFixed(b);
  }

  /** Case and one trailing "s" do not matter: "Apples", "apple" and "APPLE" all give "apple". */
  lemma ExampleApple(a: string, b: string, c: string)
    requires a == "Apples" && b == "apple" && c == "APPLE"
    ensures Normalized(a) == b && Normalized(b) == b && Normalized(c) == b
  {
    ExampleApples(a, b);
    ExampleAppleFixed(b);
    ExampleAppleUpper(c, b);
  }

  /** The "ves" rewrite never runs: "Knives" gives "knive", not "knife". */
  lemma ExampleKnives(a: string, w: string)
    requires a == "Knives" && w == "knive"
    ensures Normalized(a) == w
  {
    LowerCapitalised(a);
    assert Lower(a) == w + "s";
    PluralOfWord(a, w);
  }
}
