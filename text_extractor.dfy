/** The roll-number tokenizer of `extract_text_from_image` (Attendance.py:94-109).
    The OCR call itself is outside the model: the method receives the text
    the OCR engine returned for the sheet. */
module TextExtractor {
  import opened Seqs

  /** ASCII decimal digit (`str.isdigit` restricted to ASCII). */
  predicate IsDigit(c: char) { '0' <= c <= '9' }

  /** The characters the tokenizer looks at: digits and line breaks. */
  predicate IsKept(c: char) { IsDigit(c) || c == '\n' }

  /** A well-formed roll number: exactly eight digits. */
  predicate IsRollNumber(s: string) { |s| == 8 && forall k :: 0 <= k < |s| ==> IsDigit(s[k]) }

  predicate AllDigits(s: string) { forall k :: 0 <= k < |s| ==> IsDigit(s[k]) }

  predicate AllKept(s: string) { forall k :: 0 <= k < |s| ==> IsKept(s[k]) }

  /** `arr = [x for x in text if x.isdigit() or x == '\n']` */
  function Kept(text: string): string { Filter(text, IsKept) }

  /** The digit characters of a text, in order. */
  function Digits(text: string): string { Filter(text, IsDigit) }

  /** The loop's variables: the tokens appended so far (`result`) and the
      digits collected since the last flush (`current_string`). */
  datatype ScanState = ScanState(tokens: seq<string>, buffer: string)

  const Start := ScanState([], "")

  /** One pass of the loop body for character `c`: a line break flushes the
      buffer only when it holds exactly eight digits and is otherwise
      ignored; any other character is appended to the buffer. */
  function Step(st: ScanState, c: char): ScanState
  {
    if c == '\n' then
      if |st.buffer| == 8 then ScanState(st.tokens + [st.buffer], "") else st
    else
      ScanState(st.tokens, st.buffer + [c])
  }

  /** The state reached from `st` after the loop consumes `arr`. */
  function Run(st: ScanState, arr: string): ScanState
    decreases |arr|
  {
    if arr == [] then st else Run(Step(st, arr[0]), arr[1..])
  }

  /** After the loop, a non-empty buffer is appended whatever its length. */
  function Finish(st: ScanState): seq<string>
  {
    if st.buffer != "" then st.tokens + [st.buffer] else st.tokens
  }

  /** The list `extract_text_from_image` returns for OCR text `text`. */
  function RollNumbers(text: string): seq<string>
  {
    Finish(Run(Start, Kept(text)))
  }

  /** The tokenizer loop as written, over the OCR text. */
  method ExtractTextFromImage(text: string) returns (result: seq<string>)
    ensures result == RollNumbers(text)
    ensures Flatten(result) == Digits(text)
    ensures forall k :: 0 <= k < |result| - 1 ==> IsRollNumber(result[k])
    ensures forall k :: 0 <= k < |result| ==> result[k] != "" && AllDigits(result[k])
  {
    var arr := Kept(text);
    result := [];
    var currentString := "";
    for i := 0 to |arr|
      invariant Run(ScanState(result, currentString), arr[i..]) == Run(Start, arr)
    {
      assert arr[i..][0] == arr[i] && arr[i..][1..] == arr[i + 1..];
      var c := arr[i];
      if c == '\n' {
        if |currentString| == 8 {
          result := result + [currentString];
          currentString := "";
        }
      } else {
        currentString := currentString + [c];
      }
    }
    assert arr[|arr|..] == [];
    if currentString != "" {
      result := result + [currentString];
    }
    RollNumbersShape(text);
  }

  // ---------------------------------------------------------------------
  // What the loop does to the digits
  // ---------------------------------------------------------------------

  /** Nothing is dropped or reordered: the tokens followed by the buffer
      always spell out the digits consumed so far. */
  lemma {:induction false} RunSpellsDigits(st: ScanState, arr: string)
    requires AllKept(arr)
    ensures Flatten(Run(st, arr).tokens) + Run(st, arr).buffer
         == Flatten(st.tokens) + st.buffer + Digits(arr)
    decreases |arr|
  {
    if arr != [] {
      var c := arr[0];
      var next := Step(st, c);
      assert AllKept(arr[1..]);
      RunSpellsDigits(next, arr[1..]);
      assert Digits(arr) == (if IsDigit(c) then [c] else []) + Digits(arr[1..]);
      if c == '\n' {
        if |st.buffer| == 8 {
          FlattenSnoc(st.tokens, st.buffer);
        }
      } else {
        assert IsDigit(c);
      }
    }
  }

  /** Every token the loop appends is eight digits long, and the buffer
      only ever holds digits. */
  lemma {:induction false} RunAppendsRollNumbers(st: ScanState, arr: string)
    requires AllKept(arr)
    requires forall k :: 0 <= k < |st.tokens| ==> IsRollNumber(st.tokens[k])
    requires AllDigits(st.buffer)
    ensures forall k :: 0 <= k < |Run(st, arr).tokens| ==> IsRollNumber(Run(st, arr).tokens[k])
    ensures AllDigits(Run(st, arr).buffer)
    decreases |arr|
  {
    if arr != [] {
      var next := Step(st, arr[0]);
      assert AllKept(arr[1..]);
      assert forall k :: 0 <= k < |next.tokens| ==> IsRollNumber(next.tokens[k]);
      RunAppendsRollNumbers(next, arr[1..]);
    }
  }

  /** The shape of the result: its concatenation is exactly the digits of
      the OCR text, every token but the last is an eight-digit roll number,
      and no token is empty (the last may have any non-zero length). */
  lemma RollNumbersShape(text: string)
    ensures Flatten(RollNumbers(text)) == Digits(text)
    ensures forall k :: 0 <= k < |RollNumbers(text)| - 1 ==> IsRollNumber(RollNumbers(text)[k])
    ensures forall k :: 0 <= k < |RollNumbers(text)| ==>
              RollNumbers(text)[k] != "" && AllDigits(RollNumbers(text)[k])
  {
    var arr := Kept(text);
    var st := Run(Start, arr);
    FilterMembers(text, IsKept);
    assert AllKept(arr);
    RunSpellsDigits(Start, arr);
    RunAppendsRollNumbers(Start, arr);
    FilterNarrows(text, IsKept, IsDigit);
    assert Digits(arr) == Digits(text);
    assert Flatten(st.tokens) + st.buffer == Digits(text) by {
      assert Flatten(Start.tokens) + Start.buffer == [];
    }
    if st.buffer != "" {
      FlattenSnoc(st.tokens, st.buffer);
    } else {
      assert Flatten(st.tokens) + st.buffer == Flatten(st.tokens);
    }
  }

  // ---------------------------------------------------------------------
  // How line breaks flush the buffer
  // ---------------------------------------------------------------------

  /** Digits only grow the buffer. */
  lemma {:induction false} RunDigits(st: ScanState, ds: string, rest: string)
    requires AllDigits(ds)
    ensures Run(st, ds + rest) == Run(ScanState(st.tokens, st.buffer + ds), rest)
    decreases |ds|
  {
    if ds == [] {
      assert ds + rest == rest;
      assert st.buffer + ds == st.buffer;
    } else {
      assert (ds + rest)[0] == ds[0];
      assert (ds + rest)[1..] == ds[1..] + rest;
      assert AllDigits(ds[1..]);
      RunDigits(Step(st, ds[0]), ds[1..], rest);
      assert st.buffer + [ds[0]] + ds[1..] == st.buffer + ds;
    }
  }

  /** Once the buffer holds more than eight digits, no later line break
      flushes it: every further digit joins it and no token is appended. */
  lemma {:induction false} OverlongBufferNeverFlushes(st: ScanState, arr: string)
    requires |st.buffer| > 8
    requires AllKept(arr)
    ensures Run(st, arr) == ScanState(st.tokens, st.buffer + Digits(arr))
    decreases |arr|
  {
    if arr == [] {
      assert st.buffer + [] == st.buffer;
    } else {
      var c := arr[0];
      assert AllKept(arr[1..]);
      assert Digits(arr) == (if IsDigit(c) then [c] else []) + Digits(arr[1..]);
      OverlongBufferNeverFlushes(Step(st, c), arr[1..]);
      if c != '\n' {
        assert IsDigit(c);
        assert st.buffer + [c] + Digits(arr[1..]) == st.buffer + Digits(arr);
      }
    }
  }

  /** A line of digits whose break finds other than eight digits buffered
      is not flushed: its digits stay in the buffer and run into the next
      line, whatever tokens came before. */
  lemma ShortLineCarries(st: ScanState, a: string, rest: string)
    requires AllDigits(a) && |st.buffer| + |a| != 8
    ensures Run(st, a + "\n" + rest) == Run(ScanState(st.tokens, st.buffer + a), rest)
  {
    assert a + "\n" + rest == a + ("\n" + rest);
    RunDigits(st, a, "\n" + rest);
    assert ("\n" + rest)[0] == '\n' && ("\n" + rest)[1..] == rest;
  }

  /** A line of digits whose break finds exactly eight digits buffered
      appends them as one token and empties the buffer. */
  lemma FullLineFlushes(st: ScanState, a: string, rest: string)
    requires AllDigits(a) && |st.buffer| + |a| == 8
    ensures Run(st, a + "\n" + rest) == Run(ScanState(st.tokens + [st.buffer + a], ""), rest)
  {
    assert a + "\n" + rest == a + ("\n" + rest);
    RunDigits(st, a, "\n" + rest);
    assert ("\n" + rest)[0] == '\n' && ("\n" + rest)[1..] == rest;
  }

  /** For instance "1234\n5678\n" gives the single roll number "12345678":
      the short first line runs into the second. */
  lemma ShortLinesCarryOver(a: string, b: string)
    requires AllDigits(a) && AllDigits(b)
    requires |a| != 8 && |a| + |b| == 8
    ensures RollNumbers(a + "\n" + b + "\n") == [a + b]
  {
    var text := a + "\n" + b + "\n";
    assert Kept(text) == text by {
      assert AllKept(text) by {
        forall k | 0 <= k < |text| ensures IsKept(text[k]) {
          if k < |a| { assert text[k] == a[k]; }
          else if k == |a| || k == |text| - 1 { }
          else { assert text[k] == b[k - |a| - 1]; }
        }
      }
      FilterKeepsAll(text, IsKept);
    }
    assert text == a + "\n" + (b + "\n");
    ShortLineCarries(Start, a, b + "\n");
    assert "" + a == a;
    assert b + "\n" == b + "\n" + "";
    FullLineFlushes(ScanState([], a), b, "");
  }

  /** The trailing buffer is appended whatever its length: a text of digits
      without any line break comes back as one token, even when it is not
      eight digits long. */
  lemma UnterminatedDigitsAreOneToken(text: string)
    requires AllDigits(text) && text != ""
    ensures RollNumbers(text) == [text]
  {
    assert Kept(text) == text by {
      assert forall k :: 0 <= k < |text| ==> IsKept(text[k]);
      FilterKeepsAll(text, IsKept);
    }
    assert Run(Start, text) == ScanState([], text) by {
      RunDigits(Start, text, "");
      assert text + "" == text;
      assert "" + text == text;
    }
  }

  // ---------------------------------------------------------------------
  // Round trip: a sheet printed one roll number per line
  // ---------------------------------------------------------------------

  /** The text of a sheet listing `rolls` one per line. */
  function Sheet(rolls: seq<string>): string
  {
    if rolls == [] then "" else rolls[0] + "\n" + Sheet(rolls[1..])
  }

  lemma {:induction false} SheetIsKept(rolls: seq<string>)
    requires forall k :: 0 <= k < |rolls| ==> IsRollNumber(rolls[k])
    ensures AllKept(Sheet(rolls))
  {
    if rolls != [] {
      SheetIsKept(rolls[1..]);
      var head := rolls[0] + "\n";
      assert Sheet(rolls) == head + Sheet(rolls[1..]);
      assert IsRollNumber(rolls[0]);
      forall k | 0 <= k < |Sheet(rolls)|
        ensures IsKept(Sheet(rolls)[k])
      {
        if k < |head| {
          assert Sheet(rolls)[k] == head[k];
        } else {
          assert Sheet(rolls)[k] == Sheet(rolls[1..])[k - |head|];
        }
      }
    }
  }

  lemma {:induction false} RunSheet(tokens: seq<string>, rolls: seq<string>)
    requires forall k :: 0 <= k < |rolls| ==> IsRollNumber(rolls[k])
    ensures Run(ScanState(tokens, ""), Sheet(rolls)) == ScanState(tokens + rolls, "")
    decreases |rolls|
  {
    if rolls == [] {
      assert tokens + rolls == tokens;
    } else {
      var r := rolls[0];
      assert IsRollNumber(r);
      assert Sheet(rolls) == r + ("\n" + Sheet(rolls[1..]));
      RunDigits(ScanState(tokens, ""), r, "\n" + Sheet(rolls[1..]));
      assert "" + r == r;
      var rest := "\n" + Sheet(rolls[1..]);
      assert rest[0] == '\n' && rest[1..] == Sheet(rolls[1..]);
      RunSheet(tokens + [r], rolls[1..]);
      assert tokens + [r] + rolls[1..] == tokens + rolls;
    }
  }

  /** Extraction inverts printing: a sheet whose lines are eight-digit roll
      numbers yields exactly those roll numbers, in sheet order. */
  lemma SheetRoundTrip(rolls: seq<string>)
    requires forall k :: 0 <= k < |rolls| ==> IsRollNumber(rolls[k])
    ensures RollNumbers(Sheet(rolls)) == rolls
  {
    SheetIsKept(rolls);
    FilterKeepsAll(Sheet(rolls), IsKept);
    RunSheet([], rolls);
    assert [] + rolls == rolls;
  }
}
