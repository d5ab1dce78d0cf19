/** `_normalise_string`: German umlauts and sharp s are spelled out, then
    every code point outside ASCII is dropped (`encode('ascii', 'ignore')`).

    The code's replacement table has quirks that the model keeps:
    `Ä` is replaced by "Äe", whose `Ä` the ASCII step then drops, so `Ä`
    becomes "e"; `Ö` becomes lower-case "oe"; `Ü` becomes "Ue". */
module Normaliser {

  predicate IsAscii(c: char)
  {
    (c as int) < 128
  }

  predicate AllAscii(s: string)
  {
    forall i :: 0 <= i < |s| ==> IsAscii(s[i])
  }

  /** What normalisation makes of one code point. */
  function NormaliseChar(c: char): (r: string)
    ensures |r| <= 2
  {
    match c
    case 'ä' => "ae"
    case 'Ä' => "e"
    case 'ö' => "oe"
    case 'Ö' => "oe"
    case 'ü' => "ue"
    case 'Ü' => "Ue"
    case 'ß' => "ss"
    case _ => if IsAscii(c) then [c] else []
  }

  /** Normalisation, code point by code point: each code point becomes at
      most two. */
  function Normalise(s: string): (r: string)
    ensures |r| <= 2 * |s|
  {
    if s == [] then []
    else NormaliseChar(s[0]) + Normalise(s[1..])
  }

  // The code as written: seven `str.replace` passes, then the ASCII filter.

  /** `s.replace(pattern, replacement)` for a one-code-point `pattern`. */
  function Replace(s: string, pattern: char, replacement: string): string
  {
    if s == [] then []
    else (if s[0] == pattern then replacement else [s[0]]) + Replace(s[1..], pattern, replacement)
  }

  /** `s.encode('ascii', 'ignore').decode('utf-8')` */
  function AsciiOnly(s: string): string
  {
    if s == [] then []
    else (if IsAscii(s[0]) then [s[0]] else []) + AsciiOnly(s[1..])
  }

  function ReplacePasses(s: string): string
  {
    Replace(Replace(Replace(Replace(Replace(Replace(Replace(s,
      'ä', "ae"), 'Ä', "Äe"), 'ö', "oe"), 'Ö', "oe"), 'ü', "ue"), 'Ü', "Ue"), 'ß', "ss")
  }

  function NormaliseAsWritten(s: string): string
  {
    AsciiOnly(ReplacePasses(s))
  }

  lemma {:induction false} ReplaceAppend(a: string, b: string, pattern: char, replacement: string)
    ensures Replace(a + b, pattern, replacement) == Replace(a, pattern, replacement) + Replace(b, pattern, replacement)
  {
    if a != [] {
      assert (a + b)[1..] == a[1..] + b;
      ReplaceAppend(a[1..], b, pattern, replacement);
    } else {
      assert a + b == b;
    }
  }

  lemma {:induction false} AsciiOnlyAppend(a: string, b: string)
    ensures AsciiOnly(a + b) == AsciiOnly(a) + AsciiOnly(b)
  {
    if a != [] {
      assert (a + b)[1..] == a[1..] + b;
      AsciiOnlyAppend(a[1..], b);
    } else {
      assert a + b == b;
    }
  }

  lemma ReplacePassesAppend(a: string, b: string)
    ensures ReplacePasses(a + b) == ReplacePasses(a) + ReplacePasses(b)
  {
    var x0 := a; var y0 := b;
    ReplaceAppend(x0, y0, 'ä', "ae");
    var x1 := Replace(x0, 'ä', "ae"); var y1 := Replace(y0, 'ä', "ae");
    ReplaceAppend(x1, y1, 'Ä', "Äe");
    var x2 := Replace(x1, 'Ä', "Äe"); var y2 := Replace(y1, 'Ä', "Äe");
    ReplaceAppend(x2, y2, 'ö', "oe");
    var x3 := Replace(x2, 'ö', "oe"); var y3 := Replace(y2, 'ö', "oe");
    ReplaceAppend(x3, y3, 'Ö', "oe");
    var x4 := Replace(x3, 'Ö', "oe"); var y4 := Replace(y3, 'Ö', "oe");
    ReplaceAppend(x4, y4, 'ü', "ue");
    var x5 := Replace(x4, 'ü', "ue"); var y5 := Replace(y4, 'ü', "ue");
    ReplaceAppend(x5, y5, 'Ü', "Ue");
    var x6 := Replace(x5, 'Ü', "Ue"); var y6 := Replace(y5, 'Ü', "Ue");
    ReplaceAppend(x6, y6, 'ß', "ss");
  }

  /** A string in which `pattern` does not occur is left alone by a pass. */
  lemma {:induction false} ReplaceAbsent(s: string, pattern: char, replacement: string)
    requires pattern !in s
    ensures Replace(s, pattern, replacement) == s
  {
    if s != [] {
      ReplaceAbsent(s[1..], pattern, replacement);
    }
  }

  /** The seven passes and the filter, applied to a single code point,
      give the table entry for it. */
  lemma AsWrittenOnChar(c: char)
    ensures NormaliseAsWritten([c]) == NormaliseChar(c)
  {
    var umlauts := ['ä', 'Ä', 'ö', 'Ö', 'ü', 'Ü', 'ß'];
    if c !in umlauts {
      ReplaceAbsent([c], 'ä', "ae");
      ReplaceAbsent([c], 'Ä', "Äe");
      ReplaceAbsent([c], 'ö', "oe");
      ReplaceAbsent([c], 'Ö', "oe");
      ReplaceAbsent([c], 'ü', "ue");
      ReplaceAbsent([c], 'Ü', "Ue");
      ReplaceAbsent([c], 'ß', "ss");
      assert AsciiOnly([c]) == (if IsAscii(c) then [c] else []) + AsciiOnly([]);
    } else {
      var out := ReplacePasses([c]);
      assert Replace([c], c, NormalisedSpelling(c)) == NormalisedSpelling(c) by {
        assert [c][1..] == [];
      }
      SpellingPasses(c);
      assert out == NormalisedSpelling(c);
      AsciiOnlyOf(c);
    }
  }

  /** What the replace passes turn an umlaut or sharp s into, before the
      ASCII filter; no pass touches any other code point. */
  function NormalisedSpelling(c: char): string
  {
    match c
    case 'ä' => "ae"
    case 'Ä' => "Äe"
    case 'ö' => "oe"
    case 'Ö' => "oe"
    case 'ü' => "ue"
    case 'Ü' => "Ue"
    case 'ß' => "ss"
    case _ => [c]
  }

  /** On a single umlaut or sharp s the seven passes give its spelling;
      each case is worked out by its own lemma below. */
  lemma SpellingPasses(c: char)
    requires c in ['ä', 'Ä', 'ö', 'Ö', 'ü', 'Ü', 'ß']
    ensures ReplacePasses([c]) == NormalisedSpelling(c)
  {
    if c == 'ä' { PassesSmallA(); }
    else if c == 'Ä' { PassesCapitalA(); }
    else if c == 'ö' { PassesSmallO(); }
    else if c == 'Ö' { PassesCapitalO(); }
    else if c == 'ü' { PassesSmallU(); }
    else if c == 'Ü' { PassesCapitalU(); }
    else if c == 'ß' { PassesSharpS(); }
  }

  lemma PassesSmallA()
    ensures ReplacePasses(['ä']) == "ae"
  {
  }

  lemma PassesCapitalA()
    ensures ReplacePasses(['Ä']) == "Äe"
  {
  }

  lemma PassesSmallO()
    ensures ReplacePasses(['ö']) == "oe"
  {
  }

  lemma PassesCapitalO()
    ensures ReplacePasses(['Ö']) == "oe"
  {
  }

  lemma PassesSmallU()
    ensures ReplacePasses(['ü']) == "ue"
  {
  }

  lemma PassesCapitalU()
    ensures ReplacePasses(['Ü']) == "Ue"
  {
  }

  lemma PassesSharpS()
    ensures ReplacePasses(['ß']) == "ss"
  {
  }

  lemma AsciiOnlyOf(c: char)
    requires c in ['ä', 'Ä', 'ö', 'Ö', 'ü', 'Ü', 'ß']
    ensures AsciiOnly(NormalisedSpelling(c)) == NormaliseChar(c)
  {
    var sp := NormalisedSpelling(c);
    assert sp == [sp[0], sp[1]];
    assert AsciiOnly([sp[1]]) == (if IsAscii(sp[1]) then [sp[1]] else []) + AsciiOnly([]);
    assert [sp[0]] + [sp[1]] == sp;
    AsciiOnlyAppend([sp[0]], [sp[1]]);
    assert AsciiOnly([sp[0]]) == (if IsAscii(sp[0]) then [sp[0]] else []) + AsciiOnly([]);
  }

  /** The literal chain of replace passes followed by the ASCII filter is
      the per-code-point table applied to every code point. */
  lemma {:induction false} AsWrittenIsNormalise(s: string)
    ensures NormaliseAsWritten(s) == Normalise(s)
  {
    if s != [] {
      assert s == [s[0]] + s[1..];
      ReplacePassesAppend([s[0]], s[1..]);
      AsciiOnlyAppend(ReplacePasses([s[0]]), ReplacePasses(s[1..]));
      AsWrittenOnChar(s[0]);
      AsWrittenIsNormalise(s[1..]);
    }
  }

  /** Normalisation works code point by code point. */
  lemma {:induction false} NormaliseAppend(a: string, b: string)
    ensures Normalise(a + b) == Normalise(a) + Normalise(b)
  {
    if a != [] {
      assert (a + b)[1..] == a[1..] + b;
      NormaliseAppend(a[1..], b);
    } else {
      assert a + b == b;
    }
  }

  /** The normalised string is pure ASCII. */
  lemma {:induction false} NormaliseIsAscii(s: string)
    ensures AllAscii(Normalise(s))
  {
    if s != [] {
      NormaliseIsAscii(s[1..]);
      NormaliseCharIsAscii(s[0]);
      AllAsciiConcat(NormaliseChar(s[0]), Normalise(s[1..]));
    }
  }

  lemma NormaliseCharIsAscii(c: char)
    ensures AllAscii(NormaliseChar(c))
  {
  }

  lemma AllAsciiConcat(a: string, b: string)
    requires AllAscii(a) && AllAscii(b)
    ensures AllAscii(a + b)
  {
    forall i | 0 <= i < |a + b|
      ensures IsAscii((a + b)[i])
    {
      if i >= |a| {
        assert (a + b)[i] == b[i - |a|];
      }
    }
  }

  /** Pure-ASCII input comes back unchanged. */
  lemma {:induction false} NormaliseKeepsAscii(s: string)
    requires AllAscii(s)
    ensures Normalise(s) == s
  {
    if s != [] {
      NormaliseKeepsAscii(s[1..]);
    }
  }

  lemma NormaliseIdempotent(s: string)
    ensures Normalise(Normalise(s)) == Normalise(s)
  {
    NormaliseIsAscii(s);
    NormaliseKeepsAscii(Normalise(s));
  }

  /** An ASCII character outside the table is kept, a non-ASCII one is
      deleted. */
  lemma NormaliseCharOutsideTable(c: char)
    requires c !in ['ä', 'Ä', 'ö', 'Ö', 'ü', 'Ü', 'ß']
    ensures NormaliseChar(c) == if IsAscii(c) then [c] else []
  {
  }

  /** A code point's image is spliced in wherever it stands. */
  lemma {:induction false} NormaliseInContext(a: string, c: char, b: string)
    ensures Normalise(a + [c] + b) == Normalise(a) + NormaliseChar(c) + Normalise(b)
  {
    var x := a + [c];
    NormaliseAppend(x, b);
    NormaliseAppend(a, [c]);
    NormaliseSingle(c);
  }

  lemma NormaliseSingle(c: char)
    ensures Normalise([c]) == NormaliseChar(c)
  {
    assert [c][1..] == [];
  }
}
