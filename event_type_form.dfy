/** The two string transforms of the new-event-type form: `generateSlug`,
    which turns a title (and, on submit, the slug field) into a URL slug, and
    the sanitiser applied to every keystroke in the slug field. Case mapping
    is ASCII only; `\s` is JavaScript's whitespace class. */
module EventTypeForm {
  
  predicate IsUpper(c: char) {
    'A' <= c <= 'Z'
  }

  /** A letter or digit before lowercasing: `[A-Za-z0-9]`. */
  predicate IsAsciiAlnum(c: char) {
    'a' <= c <= 'z' || 'A' <= c <= 'Z' || '0' <= c <= '9'
  }

  /** `[a-z0-9]`, the characters `generateSlug` keeps. */
  predicate IsSlugAlnum(c: char) {
    'a' <= c <= 'z' || '0' <= c <= '9'
  }

  predicate IsSlugChar(c: char) {
    IsSlugAlnum(c) || c == '-'
  }

  /** JavaScript's `\s`: the ASCII spaces, tab, line feed, vertical tab, form
      feed, carriage return, and the Unicode space separators, line and
      paragraph separators and the byte-order mark. */
  predicate IsWhitespace(c: char) {
    var n := c as int;
    (9 <= n <= 13) || n == 32 || n == 0xA0 || n == 0x1680 || (0x2000 <= n <= 0x200A) ||
    n == 0x2028 || n == 0x2029 || n == 0x202F || n == 0x205F || n == 0x3000 || n == 0xFEFF
  }

  predicate NoUpper(s: string) {
    forall i :: 0 <= i < |s| ==> !IsUpper(s[i])
  }

  predicate AllSlugChars(s: string) {
    forall i :: 0 <= i < |s| ==> IsSlugChar(s[i])
  }

  predicate NoDoubleHyphen(s: string) {
    forall i :: 0 < i < |s| ==> !(s[i - 1] == '-' && s[i] == '-')
  }

  /** The shape every slug `generateSlug` produces: only `[a-z0-9-]`, no
      hyphen at either end, and no two hyphens in a row. */
  predicate IsSlug(s: string) {
    AllSlugChars(s) && (s != [] ==> s[0] != '-' && s[|s| - 1] != '-') && NoDoubleHyphen(s)
  }

  /** The letters and digits of a lowercased string, in order. */
  function Alnums(s: string): (r: string)
    ensures forall i :: 0 <= i < |r| ==> IsSlugAlnum(r[i])
    ensures r == [] <==> forall i :: 0 <= i < |s| ==> !IsSlugAlnum(s[i])
  {
    if s == [] then []
    else (if IsSlugAlnum(s[0]) then [s[0]] else []) + Alnums(s[1..])
  }

  lemma {:induction false} AlnumsConcat(a: string, b: string)
    ensures Alnums(a + b) == Alnums(a) + Alnums(b)
  {
    if a == [] {
      assert a + b == b;
    } else {
      assert (a + b)[1..] == a[1..] + b;
      AlnumsConcat(a[1..], b);
    }
  }

  function LowerChar(c: char): (d: char)
    ensures !IsUpper(d)
    ensures IsUpper(c) ==> d as int == c as int + 32
    ensures !IsUpper(c) ==> d == c
    ensures IsSlugAlnum(d) <==> IsAsciiAlnum(c)
  {
    if IsUpper(c) then (c as int + 32) as char else c
  }

  /** `toLowerCase()`: upper-case ASCII letters become lower case, every
      other character stays. */
  function ToLower(s: string): (r: string)
    ensures |r| == |s|
    ensures forall i :: 0 <= i < |r| ==> !IsUpper(r[i])
    ensures forall i :: 0 <= i < |s| && !IsUpper(s[i]) ==> r[i] == s[i]
    ensures forall i :: 0 <= i < |s| && IsUpper(s[i]) ==> r[i] as int == s[i] as int + 32
  {
    seq(|s|, i requires 0 <= i < |s| => LowerChar(s[i]))
  }

  /** Drops the leading run of characters outside `[a-z0-9]`. */
  function DropNonAlnum(s: string): (r: string)
    ensures |r| <= |s|
    ensures r != [] ==> IsSlugAlnum(r[0])
  {
    if s == [] || IsSlugAlnum(s[0]) then s else DropNonAlnum(s[1..])
  }

  /** What `DropNonAlnum` removes is a prefix made only of characters outside
      `[a-z0-9]`. */
  lemma {:induction false} DropNonAlnumIsSuffix(s: string)
    ensures var r := DropNonAlnum(s);
            && r == s[|s| - |r|..]
            && forall i :: 0 <= i < |s| - |r| ==> !IsSlugAlnum(s[i])
  {
    if s != [] && !IsSlugAlnum(s[0]) {
      DropNonAlnumIsSuffix(s[1..]);
    }
  }

  /** `.replace(/[^a-z0-9]+/g, "-")`: each maximal run of characters outside
      `[a-z0-9]` becomes a single hyphen. */
  function CollapseNonAlnum(s: string): (r: string)
    decreases |s|
    ensures |r| <= |s|
    ensures r == [] <==> s == []
    ensures r != [] ==> r[0] == if IsSlugAlnum(s[0]) then s[0] else '-'
    ensures AllSlugChars(r) && NoDoubleHyphen(r)
  {
    if s == [] then []
    else if IsSlugAlnum(s[0]) then [s[0]] + CollapseNonAlnum(s[1..])
    else "-" + CollapseNonAlnum(DropNonAlnum(s[1..]))
  }

  /** `.replace(/^-+/, "")`. */
  function TrimLeading(s: string): (r: string)
    ensures |r| <= |s| && r == s[|s| - |r|..]
    ensures r != [] ==> r[0] != '-'
    ensures forall i :: 0 <= i < |s| - |r| ==> s[i] == '-'
  {
    if s == [] || s[0] != '-' then s else TrimLeading(s[1..])
  }

  /** `.replace(/-+$/, "")`. */
  function TrimTrailing(s: string): (r: string)
    ensures |r| <= |s| && r == s[..|r|]
    ensures r != [] ==> r[|r| - 1] != '-'
    ensures forall i :: |r| <= i < |s| ==> s[i] == '-'
  {
    if s == [] || s[|s| - 1] != '-' then s else TrimTrailing(s[..|s| - 1])
  }

  lemma SliceKeepsShape(s: string, a: int, b: int)
    requires 0 <= a <= b <= |s|
    ensures AllSlugChars(s) ==> AllSlugChars(s[a..b])
    ensures NoDoubleHyphen(s) ==> NoDoubleHyphen(s[a..b])
  {
  }

  /** `generateSlug`: lowercase, collapse every run of other characters to
      one hyphen, strip hyphens at both ends (`/^-+|-+$/g` removes the leading
      and the trailing run, which is trimming one end and then the other).
      The result always has the slug shape. */
  function GenerateSlug(text: string): (slug: string)
    ensures IsSlug(slug)
    ensures |slug| <= |text|
  {
    var collapsed := CollapseNonAlnum(ToLower(text));
    var front := TrimLeading(collapsed);
    SliceKeepsShape(collapsed, |collapsed| - |front|, |collapsed|);
    var slug := TrimTrailing(front);
    SliceKeepsShape(front, 0, |slug|);
    slug
  }

  lemma {:induction false} DropNonAlnumKeepsAlnums(s: string)
    ensures Alnums(DropNonAlnum(s)) == Alnums(s)
  {
    if s != [] && !IsSlugAlnum(s[0]) {
      DropNonAlnumKeepsAlnums(s[1..]);
      assert s == [s[0]] + s[1..];
      AlnumsConcat([s[0]], s[1..]);
    }
  }

  lemma {:induction false} CollapseKeepsAlnums(s: string)
    decreases |s|
    ensures Alnums(CollapseNonAlnum(s)) == Alnums(s)
  {
    if s != [] {
      assert s == [s[0]] + s[1..];
      AlnumsConcat([s[0]], s[1..]);
      if IsSlugAlnum(s[0]) {
        CollapseKeepsAlnums(s[1..]);
        AlnumsConcat([s[0]], CollapseNonAlnum(s[1..]));
      } else {
        var rest := DropNonAlnum(s[1..]);
        CollapseKeepsAlnums(rest);
        DropNonAlnumKeepsAlnums(s[1..]);
        AlnumsConcat("-", CollapseNonAlnum(rest));
      }
    }
  }

  lemma {:induction false} TrimLeadingKeepsAlnums(s: string)
    ensures Alnums(TrimLeading(s)) == Alnums(s)
  {
    if s != [] && s[0] == '-' {
      TrimLeadingKeepsAlnums(s[1..]);
    }
  }

  lemma {:induction false} TrimTrailingKeepsAlnums(s: string)
    ensures Alnums(TrimTrailing(s)) == Alnums(s)
  {
    if s != [] && s[|s| - 1] == '-' {
      var init := s[..|s| - 1];
      TrimTrailingKeepsAlnums(init);
      assert s == init + [s[|s| - 1]];
      AlnumsConcat(init, [s[|s| - 1]]);
    }
  }

  /** The letters and digits of `generateSlug(text)` are exactly those of the
      lowercased text, in the same order. */
  lemma GenerateSlugKeepsAlnums(text: string)
    ensures Alnums(GenerateSlug(text)) == Alnums(ToLower(text))
  {
    var collapsed := CollapseNonAlnum(ToLower(text));
    CollapseKeepsAlnums(ToLower(text));
    TrimLeadingKeepsAlnums(collapsed);
    TrimTrailingKeepsAlnums(TrimLeading(collapsed));
  }

  /** `generateSlug` yields the empty slug exactly when the text has no ASCII
      letter or digit. */
  lemma GenerateSlugEmptyIff(text: string)
    ensures GenerateSlug(text) == [] <==> forall i :: 0 <= i < |text| ==> !IsAsciiAlnum(text[i])
  {
    var slug := GenerateSlug(text);
    GenerateSlugKeepsAlnums(text);
    var lower := ToLower(text);
    assert forall i :: 0 <= i < |text| ==> lower[i] == LowerChar(text[i]);
    if slug != [] {
      assert IsSlugAlnum(slug[0]);
    }
  }

  lemma {:induction false} CollapseFixesSlugChars(s: string)
    requires AllSlugChars(s) && NoDoubleHyphen(s)
    ensures CollapseNonAlnum(s) == s
  {
    if s != [] {
      SliceKeepsShape(s, 1, |s|);
      if IsSlugAlnum(s[0]) {
        CollapseFixesSlugChars(s[1..]);
      } else {
        assert s[1..] == [] || s[1] != '-';
        assert DropNonAlnum(s[1..]) == s[1..];
        CollapseFixesSlugChars(s[1..]);
        assert s == "-" + s[1..];
      }
    }
  }

  /** A string that already has the slug shape is its own slug. */
  lemma GenerateSlugFixesSlugs(s: string)
    requires IsSlug(s)
    ensures GenerateSlug(s) == s
  {
    assert ToLower(s) == s;
    CollapseFixesSlugChars(s);
  }

  /** `generateSlug` is idempotent, so re-applying it on submit to a slug it
      already produced changes nothing. */
  lemma GenerateSlugIdempotent(text: string)
    ensures GenerateSlug(GenerateSlug(text)) == GenerateSlug(text)
  {
    GenerateSlugFixesSlugs(GenerateSlug(text));
  }

  /** Skipping the leading run steps over a prefix made only of characters
      outside `[a-z0-9]`. */
  lemma {:induction false} DropNonAlnumRun(w: string, y: string)
    requires forall i :: 0 <= i < |w| ==> !IsSlugAlnum(w[i])
    ensures DropNonAlnum(w + y) == DropNonAlnum(y)
  {
    if w == [] {
      assert w + y == y;
    } else {
      assert (w + y)[1..] == w[1..] + y;
      DropNonAlnumRun(w[1..], y);
    }
  }

  /** Once `x` holds a letter or digit, skipping the leading run of `x + y`
      stops inside `x`. */
  lemma {:induction false} DropNonAlnumConcat(x: string, y: string)
    requires DropNonAlnum(x) != []
    ensures DropNonAlnum(x + y) == DropNonAlnum(x) + y
  {
    if !IsSlugAlnum(x[0]) {
      assert (x + y)[1..] == x[1..] + y;
      DropNonAlnumConcat(x[1..], y);
    }
  }

  /** Trimming the trailing hyphens of `x + y` stops inside `y` when `y` has
      something besides hyphens or `x` does not end in one. */
  lemma {:induction false} TrimTrailingConcat(x: string, y: string)
    requires TrimTrailing(y) != [] || x == [] || x[|x| - 1] != '-'
    decreases |y|
    ensures TrimTrailing(x + y) == x + TrimTrailing(y)
  {
    if y == [] {
      assert x + y == x;
    } else if y[|y| - 1] == '-' {
      assert (x + y)[..|x + y| - 1] == x + y[..|y| - 1];
      TrimTrailingConcat(x, y[..|y| - 1]);
    }
  }

  /** The last character of `.replace(/[^a-z0-9]+/g, "-")` is the input's last
      character when that is a letter or digit, and a hyphen otherwise. */
  lemma {:induction false} CollapseKeepsLast(s: string)
    requires s != []
    decreases |s|
    ensures var r := CollapseNonAlnum(s);
            r[|r| - 1] == if IsSlugAlnum(s[|s| - 1]) then s[|s| - 1] else '-'
  {
    if IsSlugAlnum(s[0]) {
      if |s| > 1 {
        CollapseKeepsLast(s[1..]);
      }
    } else {
      var rest := DropNonAlnum(s[1..]);
      DropNonAlnumIsSuffix(s[1..]);
      if rest == [] {
        assert |s| > 1 ==> s[|s| - 1] == s[1..][|s| - 2];
      } else {
        CollapseKeepsLast(rest);
      }
    }
  }

  /** Where `.replace(/[^a-z0-9]+/g, "-")` puts its hyphens around the
      character `c` outside `[a-z0-9]` in `x + [c] + y`. */
  ghost predicate SeparatorLaw(x: string, c: char, y: string) {
    CollapseNonAlnum(x + [c] + y) ==
    TrimTrailing(CollapseNonAlnum(x)) + "-" + CollapseNonAlnum(DropNonAlnum(y))
  }

  lemma SeparatorFirst(c: char, y: string)
    requires !IsSlugAlnum(c)
    ensures SeparatorLaw([], c, y)
  {
    assert [] + [c] + y == [c] + y;
    assert ([c] + y)[1..] == y;
  }

  lemma SeparatorAfterAlnum(x: string, c: char, y: string)
    requires x != [] && IsSlugAlnum(x[0]) && !IsSlugAlnum(c)
    requires SeparatorLaw(x[1..], c, y)
    ensures SeparatorLaw(x, c, y)
  {
    var head := CollapseNonAlnum(x[1..]);
    var q := CollapseNonAlnum(DropNonAlnum(y));
    assert (x + [c] + y)[1..] == x[1..] + [c] + y;
    assert CollapseNonAlnum(x + [c] + y) == [x[0]] + (TrimTrailing(head) + "-" + q);
    TrimTrailingConcat([x[0]], head);
    ConcatAssoc([x[0]], TrimTrailing(head) + "-", q);
    ConcatAssoc([x[0]], TrimTrailing(head), "-");
  }

  lemma SeparatorAfterRun(x: string, c: char, y: string)
    requires x != [] && !IsSlugAlnum(x[0]) && !IsSlugAlnum(c)
    requires DropNonAlnum(x[1..]) == []
    ensures SeparatorLaw(x, c, y)
  {
    var q := CollapseNonAlnum(DropNonAlnum(y));
    DropNonAlnumIsSuffix(x[1..]);
    assert (x + [c] + y)[1..] == x[1..] + ([c] + y);
    DropNonAlnumRun(x[1..], [c] + y);
    assert ([c] + y)[1..] == y;
    assert DropNonAlnum(x[1..] + ([c] + y)) == DropNonAlnum(y);
    assert CollapseNonAlnum(x + [c] + y) == "-" + q;
    assert CollapseNonAlnum(x) == "-";
    assert TrimTrailing("-") == [];
    assert [] + "-" + q == "-" + q;
  }

  lemma SeparatorAfterPrefix(x: string, c: char, y: string)
    requires x != [] && !IsSlugAlnum(x[0]) && !IsSlugAlnum(c)
    requires DropNonAlnum(x[1..]) != []
    requires SeparatorLaw(DropNonAlnum(x[1..]), c, y)
    ensures SeparatorLaw(x, c, y)
  {
    var rest := DropNonAlnum(x[1..]);
    var tail := CollapseNonAlnum(rest);
    var q := CollapseNonAlnum(DropNonAlnum(y));
    assert (x + [c] + y)[1..] == x[1..] + ([c] + y);
    DropNonAlnumConcat(x[1..], [c] + y);
    ConcatAssoc(rest, [c], y);
    assert CollapseNonAlnum(x + [c] + y) == "-" + (TrimTrailing(tail) + "-" + q);
    assert CollapseNonAlnum(x) == "-" + tail;
    assert tail[0] != '-';
    TrimTrailingConcat("-", tail);
    ConcatAssoc("-", TrimTrailing(tail) + "-", q);
    ConcatAssoc("-", TrimTrailing(tail), "-");
  }

  /** Where `.replace(/[^a-z0-9]+/g, "-")` puts its hyphens: a character
      outside `[a-z0-9]` merges with the run around it into exactly one
      hyphen, which takes the place of the hyphen ending the part before it
      (if any); the part after it continues at its first letter or digit. */
  lemma {:induction false} CollapseAroundSeparator(x: string, c: char, y: string)
    requires !IsSlugAlnum(c)
    decreases |x|
    ensures CollapseNonAlnum(x + [c] + y) ==
            TrimTrailing(CollapseNonAlnum(x)) + "-" + CollapseNonAlnum(DropNonAlnum(y))
  {
    if x == [] {
      SeparatorFirst(c, y);
    } else if IsSlugAlnum(x[0]) {
      CollapseAroundSeparator(x[1..], c, y);
      SeparatorAfterAlnum(x, c, y);
    } else if DropNonAlnum(x[1..]) == [] {
      SeparatorAfterRun(x, c, y);
    } else {
      CollapseAroundSeparator(DropNonAlnum(x[1..]), c, y);
      SeparatorAfterPrefix(x, c, y);
    }
  }

  /** `.replace(/[^a-z0-9]+/g, "-")` turns a whole run of characters outside
      `[a-z0-9]`, with a letter or digit (or an end) on either side, into
      exactly one hyphen, and treats the two sides as it would on their own. */
  lemma CollapseNonAlnumSplit(a: string, w: string, b: string)
    requires w != [] && forall i :: 0 <= i < |w| ==> !IsSlugAlnum(w[i])
    requires a == [] || IsSlugAlnum(a[|a| - 1])
    requires b == [] || IsSlugAlnum(b[0])
    ensures CollapseNonAlnum(a + w + b) == CollapseNonAlnum(a) + "-" + CollapseNonAlnum(b)
  {
    assert w == [w[0]] + w[1..];
    ConcatAssoc([w[0]], w[1..], b);
    ConcatAssoc(a, [w[0]] + w[1..], b);
    ConcatAssoc(a, [w[0]], w[1..] + b);
    CollapseAroundSeparator(a, w[0], w[1..] + b);
    DropNonAlnumRun(w[1..], b);
    if a != [] {
      CollapseKeepsLast(a);
    }
    assert TrimTrailing(CollapseNonAlnum(a)) == CollapseNonAlnum(a);
  }

  /** Stripping the leading hyphen after collapsing is the same as skipping
      the leading run before it. */
  lemma TrimLeadingCollapse(s: string)
    ensures TrimLeading(CollapseNonAlnum(s)) == CollapseNonAlnum(DropNonAlnum(s))
  {
    if s != [] && !IsSlugAlnum(s[0]) {
      var tail := CollapseNonAlnum(DropNonAlnum(s[1..]));
      assert ("-" + tail)[1..] == tail;
    }
  }

  lemma ToLowerConcat(x: string, y: string)
    ensures ToLower(x + y) == ToLower(x) + ToLower(y)
  {
  }

  lemma ConcatAssoc(x: string, y: string, z: string)
    ensures x + (y + z) == x + y + z
  {
  }

  /** `generateSlug` without the leading-hyphen strip: skip the leading run
      first, then collapse and strip the trailing hyphen. */
  lemma GenerateSlugSkipsFirstRun(text: string)
    ensures GenerateSlug(text) == TrimTrailing(CollapseNonAlnum(DropNonAlnum(ToLower(text))))
  {
    TrimLeadingCollapse(ToLower(text));
  }

  /** The lowercased, run-skipped form of `a + [c] + b`. */
  lemma SkipAroundSeparator(a: string, c: char, b: string)
    requires !IsAsciiAlnum(c)
    requires DropNonAlnum(ToLower(a)) != []
    ensures DropNonAlnum(ToLower(a + [c] + b)) == DropNonAlnum(ToLower(a)) + [LowerChar(c)] + ToLower(b)
  {
    var la, lb := ToLower(a), ToLower(b);
    ToLowerConcat(a + [c], b);
    ToLowerConcat(a, [c]);
    assert ToLower([c]) == [LowerChar(c)];
    assert la + [LowerChar(c)] + lb == la + ([LowerChar(c)] + lb);
    DropNonAlnumConcat(la, [LowerChar(c)] + lb);
  }

  /** Where `generateSlug` puts its hyphens: a character that is not an ASCII
      letter or digit, between two texts that each have a non-empty slug,
      becomes exactly one hyphen between the two slugs. */
  lemma GenerateSlugSplit(a: string, c: char, b: string)
    requires !IsAsciiAlnum(c)
    requires GenerateSlug(a) != [] && GenerateSlug(b) != []
    ensures GenerateSlug(a + [c] + b) == GenerateSlug(a) + "-" + GenerateSlug(b)
  {
    GenerateSlugSkipsFirstRun(a);
    GenerateSlugSkipsFirstRun(b);
    GenerateSlugSkipsFirstRun(a + [c] + b);
    var da := DropNonAlnum(ToLower(a));
    assert da != [];
    SkipAroundSeparator(a, c, b);
    CollapseAroundSeparator(da, LowerChar(c), ToLower(b));
    var sa := GenerateSlug(a);
    var q := CollapseNonAlnum(DropNonAlnum(ToLower(b)));
    var joined := CollapseNonAlnum(da + [LowerChar(c)] + ToLower(b));
    assert joined == sa + "-" + q;
    assert GenerateSlug(a + [c] + b) == TrimTrailing(joined);
    ConcatAssoc(sa, "-", q);
    TrimTrailingConcat("-", q);
    TrimTrailingConcat(sa, "-" + q);
    assert TrimTrailing(joined) == sa + ("-" + GenerateSlug(b));
    ConcatAssoc(sa, "-", GenerateSlug(b));
  }

  /** Drops the leading run of whitespace. */
  function DropWhitespace(s: string): (r: string)
    ensures |r| <= |s|
    ensures r != [] ==> !IsWhitespace(r[0])
    ensures NoUpper(s) ==> NoUpper(r)
  {
    if s == [] || !IsWhitespace(s[0]) then s else DropWhitespace(s[1..])
  }

  /** `.replace(/\s+/g, "-")`: each maximal run of whitespace becomes a single
      hyphen. */
  function CollapseWhitespace(s: string): (r: string)
    decreases |s|
    ensures |r| <= |s|
    ensures r == [] <==> s == []
    ensures r != [] ==> r[0] == if IsWhitespace(s[0]) then '-' else s[0]
    ensures forall i :: 0 <= i < |r| ==> !IsWhitespace(r[i])
    ensures NoUpper(s) ==> NoUpper(r)
  {
    if s == [] then []
    else if IsWhitespace(s[0]) then "-" + CollapseWhitespace(DropWhitespace(s[1..]))
    else [s[0]] + CollapseWhitespace(s[1..])
  }

  /** The slug field's keystroke sanitiser
      `value.toLowerCase().replace(/\s+/g, "-")`: no upper-case letter, no
      whitespace, and never longer than what was typed. */
  function SanitizeSlugInput(value: string): (r: string)
    ensures forall i :: 0 <= i < |r| ==> !IsUpper(r[i]) && !IsWhitespace(r[i])
    ensures |r| <= |value|
  {
    var lower := ToLower(value);
    CollapseWhitespace(lower)
  }

  lemma {:induction false} CollapseWhitespaceFixes(s: string)
    requires forall i :: 0 <= i < |s| ==> !IsWhitespace(s[i])
    ensures CollapseWhitespace(s) == s
  {
    if s != [] {
      CollapseWhitespaceFixes(s[1..]);
    }
  }

  /** Sanitising the slug field twice is the same as sanitising it once. */
  lemma SanitizeSlugInputIdempotent(value: string)
    ensures SanitizeSlugInput(SanitizeSlugInput(value)) == SanitizeSlugInput(value)
  {
    var once := SanitizeSlugInput(value);
    assert ToLower(once) == once;
    CollapseWhitespaceFixes(once);
  }

  /** Skipping the leading whitespace steps over a prefix of whitespace. */
  lemma {:induction false} DropWhitespaceRun(w: string, y: string)
    requires forall i :: 0 <= i < |w| ==> IsWhitespace(w[i])
    ensures DropWhitespace(w + y) == DropWhitespace(y)
  {
    if w == [] {
      assert w + y == y;
    } else {
      assert (w + y)[1..] == w[1..] + y;
      DropWhitespaceRun(w[1..], y);
    }
  }

  /** When `x` ends in a non-whitespace character, skipping the leading
      whitespace of `x + y` stops inside `x`, before that last character. */
  lemma {:induction false} DropWhitespaceConcat(x: string, y: string)
    requires x != [] && !IsWhitespace(x[|x| - 1])
    ensures var r := DropWhitespace(x);
            && r != [] && r[|r| - 1] == x[|x| - 1]
            && DropWhitespace(x + y) == r + y
  {
    if IsWhitespace(x[0]) {
      assert (x + y)[1..] == x[1..] + y;
      DropWhitespaceConcat(x[1..], y);
    }
  }

  ghost predicate WhitespaceConcatLaw(x: string, y: string) {
    CollapseWhitespace(x + y) == CollapseWhitespace(x) + CollapseWhitespace(y)
  }

  lemma WhitespaceConcatAfterChar(x: string, y: string)
    requires x != [] && !IsWhitespace(x[0])
    requires WhitespaceConcatLaw(x[1..], y)
    ensures WhitespaceConcatLaw(x, y)
  {
    assert (x + y)[1..] == x[1..] + y;
    ConcatAssoc([x[0]], CollapseWhitespace(x[1..]), CollapseWhitespace(y));
  }

  lemma WhitespaceConcatAfterRun(x: string, y: string)
    requires |x| > 1 && IsWhitespace(x[0]) && !IsWhitespace(x[|x| - 1])
    requires WhitespaceConcatLaw(DropWhitespace(x[1..]), y)
    ensures WhitespaceConcatLaw(x, y)
  {
    assert (x + y)[1..] == x[1..] + y;
    DropWhitespaceConcat(x[1..], y);
    ConcatAssoc("-", CollapseWhitespace(DropWhitespace(x[1..])), CollapseWhitespace(y));
  }

  /** A boundary right after a non-whitespace character is never inside a
      run, so `.replace(/\s+/g, "-")` treats the two sides separately. */
  lemma {:induction false} CollapseWhitespaceConcat(x: string, y: string)
    requires x == [] || !IsWhitespace(x[|x| - 1])
    decreases |x|
    ensures CollapseWhitespace(x + y) == CollapseWhitespace(x) + CollapseWhitespace(y)
  {
    if x == [] {
      assert x + y == y;
    } else if !IsWhitespace(x[0]) {
      CollapseWhitespaceConcat(x[1..], y);
      WhitespaceConcatAfterChar(x, y);
    } else {
      DropWhitespaceConcat(x[1..], y);
      CollapseWhitespaceConcat(DropWhitespace(x[1..]), y);
      WhitespaceConcatAfterRun(x, y);
    }
  }

  lemma WhitespaceRunFirst(w: string, b: string)
    requires w != [] && forall i :: 0 <= i < |w| ==> IsWhitespace(w[i])
    requires b == [] || !IsWhitespace(b[0])
    ensures CollapseWhitespace(w + b) == "-" + CollapseWhitespace(b)
  {
    var t := (w + b)[1..];
    assert t == w[1..] + b;
    DropWhitespaceRun(w[1..], b);
    assert DropWhitespace(t) == b;
    assert (w + b)[0] == w[0];
  }

  /** `.replace(/\s+/g, "-")` turns a whole run of whitespace, with a
      non-whitespace character (or an end) on either side, into exactly one
      hyphen, and treats the two sides as it would on their own. */
  lemma CollapseWhitespaceSplit(a: string, w: string, b: string)
    requires w != [] && forall i :: 0 <= i < |w| ==> IsWhitespace(w[i])
    requires a == [] || !IsWhitespace(a[|a| - 1])
    requires b == [] || !IsWhitespace(b[0])
    ensures CollapseWhitespace(a + w + b) == CollapseWhitespace(a) + "-" + CollapseWhitespace(b)
  {
    ConcatAssoc(a, w, b);
    CollapseWhitespaceConcat(a, w + b);
    WhitespaceRunFirst(w, b);
    ConcatAssoc(CollapseWhitespace(a), "-", CollapseWhitespace(b));
  }

  /** Text without whitespace is only lowercased by the sanitiser. */
  lemma SanitizeSlugInputNoWhitespace(value: string)
    requires forall i :: 0 <= i < |value| ==> !IsWhitespace(value[i])
    ensures SanitizeSlugInput(value) == ToLower(value)
  {
    CollapseWhitespaceFixes(ToLower(value));
  }

  /** The sanitiser turns each whole run of whitespace into one hyphen and
      lowercases the text on both sides of it. */
  lemma SanitizeSlugInputSplit(a: string, w: string, b: string)
    requires w != [] && forall i :: 0 <= i < |w| ==> IsWhitespace(w[i])
    requires a == [] || !IsWhitespace(a[|a| - 1])
    requires b == [] || !IsWhitespace(b[0])
    ensures SanitizeSlugInput(a + w + b) == SanitizeSlugInput(a) + "-" + SanitizeSlugInput(b)
  {
    ToLowerConcat(a + w, b);
    ToLowerConcat(a, w);
    assert ToLower(w) == w;
    CollapseWhitespaceSplit(ToLower(a), w, ToLower(b));
  }

  lemma {:induction false} DropNonAlnumSkipsWhitespace(s: string)
    ensures DropNonAlnum(DropWhitespace(s)) == DropNonAlnum(s)
  {
    if s != [] && IsWhitespace(s[0]) {
      DropNonAlnumSkipsWhitespace(s[1..]);
    }
  }

  lemma {:induction false} DropNonAlnumCommutes(t: string)
    decreases |t|
    ensures DropNonAlnum(CollapseWhitespace(t)) == CollapseWhitespace(DropNonAlnum(t))
  {
    if t != [] && !IsSlugAlnum(t[0]) {
      if IsWhitespace(t[0]) {
        var w := DropWhitespace(t[1..]);
        assert ("-" + CollapseWhitespace(w))[1..] == CollapseWhitespace(w);
        DropNonAlnumCommutes(w);
        DropNonAlnumSkipsWhitespace(t[1..]);
      } else {
        assert ([t[0]] + CollapseWhitespace(t[1..]))[1..] == CollapseWhitespace(t[1..]);
        DropNonAlnumCommutes(t[1..]);
      }
    }
  }

  lemma {:induction false} CollapseAbsorbsWhitespace(x: string)
    decreases |x|
    ensures CollapseNonAlnum(CollapseWhitespace(x)) == CollapseNonAlnum(x)
  {
    if x != [] {
      if IsSlugAlnum(x[0]) {
        assert ([x[0]] + CollapseWhitespace(x[1..]))[1..] == CollapseWhitespace(x[1..]);
        CollapseAbsorbsWhitespace(x[1..]);
      } else if IsWhitespace(x[0]) {
        var w := DropWhitespace(x[1..]);
        assert ("-" + CollapseWhitespace(w))[1..] == CollapseWhitespace(w);
        DropNonAlnumCommutes(w);
        CollapseAbsorbsWhitespace(DropNonAlnum(w));
        DropNonAlnumSkipsWhitespace(x[1..]);
      } else {
        assert ([x[0]] + CollapseWhitespace(x[1..]))[1..] == CollapseWhitespace(x[1..]);
        DropNonAlnumCommutes(x[1..]);
        CollapseAbsorbsWhitespace(DropNonAlnum(x[1..]));
      }
    }
  }

  /** The slug submitted from a sanitised slug field,
      `generateSlug(sanitised)`, is the slug of the raw typed text: the
      keystroke sanitiser never changes the final slug. */
  lemma SanitizedThenGenerated(value: string)
    ensures GenerateSlug(SanitizeSlugInput(value)) == GenerateSlug(value)
  {
    var lower := ToLower(value);
    var sanitized := SanitizeSlugInput(value);
    assert ToLower(sanitized) == sanitized;
    CollapseAbsorbsWhitespace(lower);
  }
}
