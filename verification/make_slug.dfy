/** The title-to-slug helper `makeSlug` and its punctuation class. The helper
    is defined by the build script but never called there. */
module MakeSlug {
  import opened JsValues

  /** Which reading of the punctuation class to use: as written, `+-=` inside
      the brackets is the range from '+' to '=', which adds the digits 0-9 to
      the class (the other characters of the range are listed anyway); the
      intended reading lists the three characters '+', '-' and '=' only. */
  datatype PunctuationClass = AsWritten | Intended

  /** The characters the class lists one by one. */
  predicate Listed(c: char)
  {
    || c == '`' || c == '~' || c == '!' || c == '@' || c == '#' || c == '$' || c == '%'
    || c == '^' || c == '&' || c == '*' || c == '(' || c == ')' || c == '_' || c == '{'
    || c == '}' || c == '[' || c == ']' || c == ';' || c == ':' || c == '\'' || c == '"'
    || c == ',' || c == '.' || c == '<' || c == '>' || c == '/' || c == '?' || c == '\\'
    || c == '|'
  }

  predicate InClass(cls: PunctuationClass, c: char)
  {
    match cls
    case AsWritten => Listed(c) || '+' <= c <= '='
    case Intended => Listed(c) || c == '+' || c == '-' || c == '='
  }

  /** The intended class is exactly the printable ASCII punctuation; the
      class as written adds the digits to it. */
  lemma ClassesAsAsciiRanges(c: char)
    ensures InClass(Intended, c) <==> var n := c as int; 33 <= n <= 47 || 58 <= n <= 64 || 91 <= n <= 96 || 123 <= n <= 126
    ensures InClass(AsWritten, c) <==> InClass(Intended, c) || IsDigit(c)
  {
  }

  /** The characters `\s` matches. */
  predicate Whitespace(c: char)
  {
    var n := c as int;
    || 9 <= n <= 13 || n == 32 || n == 0xA0 || n == 0x1680 || 0x2000 <= n <= 0x200A
    || n == 0x2028 || n == 0x2029 || n == 0x202F || n == 0x205F || n == 0x3000 || n == 0xFEFF
  }

  predicate IsUpperAscii(c: char)
  {
    'A' <= c <= 'Z'
  }

  function LowerAscii(c: char): (d: char)
    ensures !IsUpperAscii(d)
    ensures IsUpperAscii(c) ==> d == "abcdefghijklmnopqrstuvwxyz"[c as int - 'A' as int]
    ensures !IsUpperAscii(c) ==> d == c
  {
    if IsUpperAscii(c) then (c as int + 32) as char else c
  }

  /** `replace(punctuation, "")`: every character of the class removed. */
  function StripPunctuation(cls: PunctuationClass, t: string): (r: string)
    ensures |r| <= |t|
    decreases |t|
  {
    if |t| == 0 then ""
    else
      (if InClass(cls, t[0]) then "" else [t[0]]) + StripPunctuation(cls, t[1..])
  }

  /** Stripping keeps the kept characters in title order: a title stripped
      piece by piece is the whole title stripped. */
  lemma {:induction false} StripPunctuationConcat(cls: PunctuationClass, a: string, b: string)
    ensures StripPunctuation(cls, a + b) == StripPunctuation(cls, a) + StripPunctuation(cls, b)
    decreases |a|
  {
    if |a| > 0 {
      var x, rest := a[0], a[1..];
      var head := if InClass(cls, x) then "" else [x];
      assert a == [x] + rest;
      assert a + b == [x] + (rest + b);
      StripCons(cls, x, rest);
      StripCons(cls, x, rest + b);
      StripPunctuationConcat(cls, rest, b);
      var sr, sb := StripPunctuation(cls, rest), StripPunctuation(cls, b);
      assert head + (sr + sb) == (head + sr) + sb;
    } else {
      assert a + b == b;
    }
  }

  /** Every character outside the class is kept as often as it occurs in
      the title; every character of the class is dropped. */
  lemma {:induction false} StripPunctuationCounts(cls: PunctuationClass, t: string)
    ensures forall c :: multiset(StripPunctuation(cls, t))[c] == if InClass(cls, c) then 0 else multiset(t)[c]
    ensures forall c :: c in StripPunctuation(cls, t) <==> c in t && !InClass(cls, c)
    decreases |t|
  {
    if |t| > 0 {
      StripPunctuationCounts(cls, t[1..]);
      StripCons(cls, t[0], t[1..]);
      assert t == [t[0]] + t[1..];
      assert multiset(t) == multiset([t[0]]) + multiset(t[1..]);
    }
    forall c ensures c in StripPunctuation(cls, t) <==> c in t && !InClass(cls, c) {
      assert c in StripPunctuation(cls, t) <==> c in multiset(StripPunctuation(cls, t));
      assert c in t <==> c in multiset(t);
    }
  }

  lemma StripCons(cls: PunctuationClass, c: char, t: string)
    ensures StripPunctuation(cls, [c] + t) == (if InClass(cls, c) then "" else [c]) + StripPunctuation(cls, t)
  {
    assert ([c] + t)[0] == c;
    assert ([c] + t)[1..] == t;
  }

  /** `replace(/\s/g, "-")`: each whitespace character, not each run,
      becomes one hyphen. */
  function HyphenateWhitespace(t: string): (r: string)
    ensures |r| == |t|
    ensures forall i :: 0 <= i < |t| ==> r[i] == if Whitespace(t[i]) then '-' else t[i]
    decreases |t|
  {
    if |t| == 0 then "" else [if Whitespace(t[0]) then '-' else t[0]] + HyphenateWhitespace(t[1..])
  }

  /** `toLowerCase()`, restricted to ASCII letters. */
  function LowercaseAscii(t: string): (r: string)
    ensures |r| == |t|
    ensures forall i :: 0 <= i < |t| ==> r[i] == LowerAscii(t[i])
    decreases |t|
  {
    if |t| == 0 then "" else [LowerAscii(t[0])] + LowercaseAscii(t[1..])
  }

  /** The text after the leading "/" of a slug derived from a title: the
      three replacements in the order the helper applies them. */
  function SlugBody(cls: PunctuationClass, title: string): string
  {
    LowercaseAscii(HyphenateWhitespace(StripPunctuation(cls, title)))
  }

  /** What one surviving title character becomes. */
  function CleanChar(c: char): char
  {
    if Whitespace(c) then '-' else LowerAscii(c)
  }

  /** Reference definition: a single left-to-right pass that drops class
      characters and cleans the others. */
  function SinglePassBody(cls: PunctuationClass, t: string): string
    decreases |t|
  {
    if |t| == 0 then ""
    else (if InClass(cls, t[0]) then "" else [CleanChar(t[0])]) + SinglePassBody(cls, t[1..])
  }

  predicate CleanText(cls: PunctuationClass, s: string)
  {
    forall i :: 0 <= i < |s| ==> !Whitespace(s[i]) && !IsUpperAscii(s[i]) && (InClass(cls, s[i]) ==> s[i] == '-')
  }

  /** `makeSlug(slug, title)`: a truthy slug is returned as it is; otherwise
      "/" followed by the title with the class removed, each whitespace
      character turned into "-", and ASCII letters lower-cased. */
  function MakeSlugWith(cls: PunctuationClass, slug: Option<string>, title: string): (r: string)
    ensures Truthy(slug) ==> r == slug.value
    ensures !Truthy(slug) ==> |r| >= 1 && r[0] == '/' && CleanText(cls, r[1..])
    ensures !Truthy(slug) ==> |r| <= |title| + 1
    ensures !Truthy(slug) ==> forall c :: c in title && !InClass(cls, c) ==> CleanChar(c) in r[1..]
  {
    if Truthy(slug) then slug.value
    else
      var body := SlugBody(cls, title);
      SlugBodyIsSinglePass(cls, title);
      SinglePassIsClean(cls, title);
      assert ("/" + body)[1..] == body;
      "/" + body
  }

  /** The helper as written: a truthy slug is kept, otherwise one is derived
      from the title. */
  function MakeSlug(slug: Option<string>, title: string): string
  {
    MakeSlugWith(AsWritten, slug, title)
  }

  /** The helper with the punctuation class its author evidently meant. */
  function MakeSlugIntended(slug: Option<string>, title: string): string
  {
    MakeSlugWith(Intended, slug, title)
  }

  lemma HyphenateConcat(a: string, b: string)
    ensures HyphenateWhitespace(a + b) == HyphenateWhitespace(a) + HyphenateWhitespace(b)
  {
    var l, r := HyphenateWhitespace(a + b), HyphenateWhitespace(a) + HyphenateWhitespace(b);
    assert forall i :: 0 <= i < |l| ==> l[i] == r[i];
  }

  lemma LowercaseConcat(a: string, b: string)
    ensures LowercaseAscii(a + b) == LowercaseAscii(a) + LowercaseAscii(b)
  {
    var l, r := LowercaseAscii(a + b), LowercaseAscii(a) + LowercaseAscii(b);
    assert forall i :: 0 <= i < |l| ==> l[i] == r[i];
  }

  /** The three replacements applied in turn amount to the single pass. */
  lemma {:induction false} SlugBodyIsSinglePass(cls: PunctuationClass, t: string)
    ensures SlugBody(cls, t) == SinglePassBody(cls, t)
    decreases |t|
  {
    if |t| > 0 {
      var head := if InClass(cls, t[0]) then "" else [t[0]];
      var s := StripPunctuation(cls, t[1..]);
      assert StripPunctuation(cls, t) == head + s;
      HyphenateConcat(head, s);
      LowercaseConcat(HyphenateWhitespace(head), HyphenateWhitespace(s));
      SlugBodyIsSinglePass(cls, t[1..]);
    }
  }

  lemma SinglePassCons(cls: PunctuationClass, c: char, t: string)
    ensures SinglePassBody(cls, [c] + t) == (if InClass(cls, c) then "" else [CleanChar(c)]) + SinglePassBody(cls, t)
  {
    assert ([c] + t)[0] == c;
    assert ([c] + t)[1..] == t;
  }

  lemma CleanCharIsClean(cls: PunctuationClass, c: char)
    requires !InClass(cls, c)
    ensures !Whitespace(CleanChar(c)) && !IsUpperAscii(CleanChar(c))
    ensures InClass(cls, CleanChar(c)) ==> CleanChar(c) == '-'
  {
  }

  lemma {:induction false} SinglePassIsClean(cls: PunctuationClass, t: string)
    ensures |SinglePassBody(cls, t)| <= |t|
    ensures CleanText(cls, SinglePassBody(cls, t))
    ensures forall c :: c in t && !InClass(cls, c) ==> CleanChar(c) in SinglePassBody(cls, t)
    decreases |t|
  {
    if |t| > 0 {
      SinglePassIsClean(cls, t[1..]);
      var head := if InClass(cls, t[0]) then "" else [CleanChar(t[0])];
      var rest := SinglePassBody(cls, t[1..]);
      assert SinglePassBody(cls, t) == head + rest;
      if !InClass(cls, t[0]) {
        CleanCharIsClean(cls, t[0]);
      }
      forall i | 0 <= i < |head + rest|
        ensures var x := (head + rest)[i]; !Whitespace(x) && !IsUpperAscii(x) && (InClass(cls, x) ==> x == '-')
      {
        if i >= |head| {
          assert (head + rest)[i] == rest[i - |head|];
        }
      }
      forall c | c in t && !InClass(cls, c) ensures CleanChar(c) in head + rest {
        if c != t[0] {
          assert c in t[1..];
        }
      }
    }
  }

  lemma {:induction false} SinglePassConcat(cls: PunctuationClass, a: string, b: string)
    ensures SinglePassBody(cls, a + b) == SinglePassBody(cls, a) + SinglePassBody(cls, b)
    decreases |a|
  {
    if |a| > 0 {
      assert a == [a[0]] + a[1..];
      assert a + b == [a[0]] + (a[1..] + b);
      SinglePassCons(cls, a[0], a[1..]);
      SinglePassCons(cls, a[0], a[1..] + b);
      SinglePassConcat(cls, a[1..], b);
    } else {
      assert a + b == b;
    }
  }

  /** Slugging a title piece by piece gives the slug of the whole title:
      every character is handled on its own, whitespace included. */
  lemma SlugBodyConcat(cls: PunctuationClass, a: string, b: string)
    ensures SlugBody(cls, a + b) == SlugBody(cls, a) + SlugBody(cls, b)
  {
    SlugBodyIsSinglePass(cls, a + b);
    SlugBodyIsSinglePass(cls, a);
    SlugBodyIsSinglePass(cls, b);
    SinglePassConcat(cls, a, b);
  }

  /** A title that is already clean text without hyphens derives its own
      text as slug body. */
  lemma {:induction false} SlugBodyFixesCleanText(cls: PunctuationClass, t: string)
    requires forall i :: 0 <= i < |t| ==> !Whitespace(t[i]) && !IsUpperAscii(t[i]) && !InClass(cls, t[i])
    ensures SlugBody(cls, t) == t
    decreases |t|
  {
    SlugBodyIsSinglePass(cls, t);
    SinglePassFixesCleanText(cls, t);
  }

  lemma {:induction false} SinglePassFixesCleanText(cls: PunctuationClass, t: string)
    requires forall i :: 0 <= i < |t| ==> !Whitespace(t[i]) && !IsUpperAscii(t[i]) && !InClass(cls, t[i])
    ensures SinglePassBody(cls, t) == t
    decreases |t|
  {
    if |t| > 0 {
      SinglePassFixesCleanText(cls, t[1..]);
    }
  }

  /** As written, no slug derived from a title keeps a digit. */
  lemma AsWrittenDropsDigits(title: string)
    ensures forall i :: 1 <= i < |MakeSlug(None, title)| ==> !IsDigit(MakeSlug(None, title)[i])
  {
    var r := MakeSlug(None, title);
    assert CleanText(AsWritten, r[1..]);
    forall i | 1 <= i < |r| ensures !IsDigit(r[i]) {
      assert r[1..][i - 1] == r[i];
    }
  }

  /** With the intended class, every digit of the title survives. */
  lemma IntendedKeepsDigits(title: string)
    ensures forall c :: c in title && IsDigit(c) ==> c in MakeSlugIntended(None, title)[1..]
  {
    forall c | c in title && IsDigit(c) ensures c in MakeSlugIntended(None, title)[1..] {
      assert !InClass(Intended, c);
      assert CleanChar(c) == c;
    }
  }

  lemma {:induction false} SinglePassDropsAll(cls: PunctuationClass, t: string)
    requires forall i :: 0 <= i < |t| ==> InClass(cls, t[i])
    ensures SinglePassBody(cls, t) == ""
    decreases |t|
  {
    if |t| > 0 {
      SinglePassDropsAll(cls, t[1..]);
    }
  }

  /** As written, a title made of digits only derives "/", the path of the
      default locale's root page. */
  lemma DigitTitleSlugIsRoot(title: string)
    requires AllDigits(title)
    ensures MakeSlug(None, title) == "/"
  {
    DerivedSlug(AsWritten, title);
    SinglePassDropsAll(AsWritten, title);
  }

  /** With the intended class, a title made of digits only is kept whole. */
  lemma IntendedDigitTitle(title: string)
    requires AllDigits(title)
    ensures MakeSlugIntended(None, title) == "/" + title
  {
    forall i | 0 <= i < |title|
      ensures !Whitespace(title[i]) && !IsUpperAscii(title[i]) && !InClass(Intended, title[i])
    {
      DigitIsPlain(title[i]);
    }
    SinglePassFixesCleanText(Intended, title);
    DerivedSlug(Intended, title);
  }

  lemma DigitIsPlain(c: char)
    requires IsDigit(c)
    ensures !Whitespace(c) && !IsUpperAscii(c) && !InClass(Intended, c)
  {
  }

  lemma WordBody(cls: PunctuationClass)
    ensures SinglePassBody(cls, "Top ") == "top-"
  {
    assert !InClass(cls, ' ') && !InClass(cls, 'p');
    assert !InClass(cls, 'o') && !InClass(cls, 'T');
    SinglePassCons(cls, ' ', "");
    SinglePassCons(cls, 'p', " ");
    assert ['p'] + " " == "p ";
    SinglePassCons(cls, 'o', "p ");
    assert ['o'] + "p " == "op ";
    SinglePassCons(cls, 'T', "op ");
    assert ['T'] + "op " == "Top ";
  }

  lemma NumberBody(cls: PunctuationClass)
    ensures SinglePassBody(cls, "10") == if cls == AsWritten then "" else "10"
  {
    assert InClass(cls, '0') <==> cls == AsWritten;
    assert InClass(cls, '1') <==> cls == AsWritten;
    SinglePassCons(cls, '0', "");
    SinglePassCons(cls, '1', "0");
    assert ['1'] + "0" == "10";
  }

  lemma TopTenBody(cls: PunctuationClass)
    ensures SinglePassBody(cls, "Top 10") == if cls == AsWritten then "top-" else "top-10"
  {
    WordBody(cls);
    NumberBody(cls);
    SinglePassConcat(cls, "Top ", "10");
    assert "Top " + "10" == "Top 10";
  }

  lemma DerivedSlug(cls: PunctuationClass, title: string)
    ensures MakeSlugWith(cls, None, title) == "/" + SinglePassBody(cls, title)
  {
    SlugBodyIsSinglePass(cls, title);
  }

  /** The title "Top 10" shows the difference. */
  lemma PunctuationRangeStripsDigits()
    ensures MakeSlug(None, "Top 10") == "/top-"
    ensures MakeSlugIntended(None, "Top 10") == "/top-10"
  {
    assert "/" + "top-" == "/top-";
    assert "/" + "top-10" == "/top-10";
    DerivedSlug(AsWritten, "Top 10");
    DerivedSlug(Intended, "Top 10");
    TopTenBody(AsWritten);
    TopTenBody(Intended);
  }
}
