/** The marker test `is_sign` (Attendance.py:42-51). The OCR call on the cell
    image is outside the model: the method receives the text the OCR engine
    read in the cell. */
module SignMarker {
  import opened Seqs

  /** ASCII letter (`str.isalpha` restricted to ASCII). */
  predicate IsAlpha(c: char) { 'a' <= c <= 'z' || 'A' <= c <= 'Z' }

  /** ASCII case folding of one character (`str.lower`). */
  function ToLower(c: char): char
  {
    if 'A' <= c <= 'Z' then (c as int - 'A' as int + 'a' as int) as char else c
  }

  function Lower(s: string): string
  {
    seq(|s|, k requires 0 <= k < |s| => ToLower(s[k]))
  }

  /** `arr = [x for x in text if x.isalpha()]` */
  function Letters(text: string): string { Filter(text, IsAlpha) }

  const Marker := "sign"

  /** The cell text marks the signature column. */
  predicate IsSignText(text: string) { Lower(Letters(text)) == Marker }

  /** `is_sign` as written: join the letters of the text one by one, fold
      the result to lower case and compare it with the marker word. */
  method IsSign(text: string) returns (output: bool)
    ensures output == IsSignText(text)
  {
    output := false;
    var arr := Letters(text);
    var result := "";
    for j := 0 to |arr|
      invariant result == arr[..j]
    {
      result := result + [arr[j]];
    }
    assert result == arr;
    if Lower(result) == Marker {
      output := true;
    }
  }

  // ---------------------------------------------------------------------
  // What the marker test accepts
  // ---------------------------------------------------------------------

  /** Exactly the texts with four letters that spell "sign" in any mix of
      cases are accepted. */
  lemma SignTextSpelling(text: string)
    ensures IsSignText(text) <==>
      var l := Letters(text);
      |l| == 4 && (l[0] == 's' || l[0] == 'S') && (l[1] == 'i' || l[1] == 'I')
               && (l[2] == 'g' || l[2] == 'G') && (l[3] == 'n' || l[3] == 'N')
  {
    var l := Letters(text);
    if |l| == 4 {
      assert Marker == ['s', 'i', 'g', 'n'];
      if IsSignText(text) {
        assert Lower(l)[0] == 's' && Lower(l)[1] == 'i' && Lower(l)[2] == 'g' && Lower(l)[3] == 'n';
      }
      if (l[0] == 's' || l[0] == 'S') && (l[1] == 'i' || l[1] == 'I')
         && (l[2] == 'g' || l[2] == 'G') && (l[3] == 'n' || l[3] == 'N') {
        assert Lower(l) == Marker;
      }
    } else {
      assert |Lower(l)| != |Marker|;
    }
  }

  /** Characters that are not letters (digits, punctuation, spaces, line
      breaks) never change the verdict, wherever they stand. */
  lemma {:induction false} SignIgnoresNonLetters(a: string, c: char, b: string)
    requires !IsAlpha(c)
    ensures IsSignText(a + [c] + b) == IsSignText(a + b)
  {
    FilterConcat(a + [c], b, IsAlpha);
    FilterConcat(a, [c], IsAlpha);
    FilterConcat(a, b, IsAlpha);
    assert Filter([c], IsAlpha) == [] by {
      assert [c][1..] == [];
    }
    assert Letters(a + [c] + b) == Letters(a + b);
  }

  /** A letter stays a letter under case folding, and nothing else becomes one. */
  lemma LowerKeepsLetters(c: char)
    ensures IsAlpha(ToLower(c)) == IsAlpha(c)
  {
  }

  lemma LowerCons(c: char, s: string)
    ensures Lower([c] + s) == [ToLower(c)] + Lower(s)
  {
  }

  /** Folding the whole text to lower case first does not change the
      verdict: the test is case-insensitive. */
  lemma {:induction false} LettersOfLower(text: string)
    ensures Letters(Lower(text)) == Lower(Letters(text))
    decreases |text|
  {
    if text != [] {
      var c, rest := text[0], text[1..];
      assert text == [c] + rest;
      LowerCons(c, rest);
      LowerKeepsLetters(c);
      LettersOfLower(rest);
      FilterConcat([c], rest, IsAlpha);
      FilterConcat([ToLower(c)], Lower(rest), IsAlpha);
      assert [c][1..] == [] && [ToLower(c)][1..] == [];
      if IsAlpha(c) {
        LowerCons(c, Letters(rest));
      }
    }
  }

  lemma SignIsCaseInsensitive(text: string)
    ensures IsSignText(Lower(text)) == IsSignText(text)
  {
    LettersOfLower(text);
    var l := Letters(text);
    assert Lower(Lower(l)) == Lower(l);
  }

  /** Texts without letters contribute nothing to the compared word. */
  lemma {:induction false} NoLettersInNoise(noise: string)
    requires forall k :: 0 <= k < |noise| ==> !IsAlpha(noise[k])
    ensures Letters(noise) == []
    decreases |noise|
  {
    if noise != [] {
      NoLettersInNoise(noise[1..]);
    }
  }

  /** A letter followed by noise adds just that letter. */
  lemma LettersAppendLetter(p: string, c: char, noise: string)
    requires IsAlpha(c)
    requires forall k :: 0 <= k < |noise| ==> !IsAlpha(noise[k])
    ensures Letters(p + [c] + noise) == Letters(p) + [c]
  {
    NoLettersInNoise(noise);
    FilterConcat(p, [c], IsAlpha);
    FilterConcat(p + [c], noise, IsAlpha);
    assert Letters([c]) == [c] by {
      assert [c][1..] == [];
    }
  }

  /** The marker letters split by any noise without letters are accepted,
      e.g. "S-i g.n 2" (noise "-", " ", "." and " 2"). */
  lemma InterleavedMarkerAccepted(n1: string, n2: string, n3: string, n4: string)
    requires forall k :: 0 <= k < |n1| ==> !IsAlpha(n1[k])
    requires forall k :: 0 <= k < |n2| ==> !IsAlpha(n2[k])
    requires forall k :: 0 <= k < |n3| ==> !IsAlpha(n3[k])
    requires forall k :: 0 <= k < |n4| ==> !IsAlpha(n4[k])
    ensures IsSignText(['S'] + n1 + ['i'] + n2 + ['g'] + n3 + ['n'] + n4)
  {
    var p1 := ['S'] + n1;
    assert [] + ['S'] + n1 == p1;
    var p2 := p1 + ['i'] + n2;
    var p3 := p2 + ['g'] + n3;
    var p4 := p3 + ['n'] + n4;
    assert Letters([]) == [];
    LettersAppendLetter([], 'S', n1);
    LettersAppendLetter(p1, 'i', n2);
    LettersAppendLetter(p2, 'g', n3);
    LettersAppendLetter(p3, 'n', n4);
    assert Letters(p4) == ['S', 'i', 'g', 'n'];
    SignTextSpelling(p4);
  }
}
