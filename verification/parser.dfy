/** The input-line parser.

    A line is split on every single space, keeping empty tokens, and must
    yield exactly three tokens: a date, a size code and a carrier code. Any
    failure carries the whole input line as its error. */
module Parser {
  import opened Core
  import opened Enums
  import opened Dates
  import opened Models

  /** `string.Split(separator)`: the pieces between separators, empty pieces
      included, so `n` separators always give `n + 1` pieces. */
  function Split(s: string, separator: char): (tokens: seq<string>)
    ensures |tokens| >= 1
    ensures forall i :: 0 <= i < |tokens| ==> separator !in tokens[i]
    ensures Join(tokens, separator) == s
  {
    if |s| == 0 then [""]
    else
      var rest := Split(s[1..], separator);
      if s[0] == separator then
        assert s == [separator] + s[1..];
        [""] + rest
      else
        var tokens := [[s[0]] + rest[0]] + rest[1..];
        assert forall i :: 1 <= i < |tokens| ==> tokens[i] == rest[i];
        assert Join(tokens, separator) == [s[0]] + Join(rest, separator) by {
          if |rest| > 1 {
            assert tokens[1..] == rest[1..];
          }
        }
        tokens
  }

  /** The pieces joined with the separator between them. */
  function Join(tokens: seq<string>, separator: char): string
    requires |tokens| >= 1
  {
    if |tokens| == 1 then tokens[0] else tokens[0] + [separator] + Join(tokens[1..], separator)
  }

  /** Splitting a separator-free piece followed by a separator. */
  lemma {:induction false} SplitAfterPiece(a: string, separator: char, b: string)
    requires separator !in a
    ensures Split(a + [separator] + b, separator) == [a] + Split(b, separator)
  {
    if |a| > 0 {
      SplitAfterPiece(a[1..], separator, b);
      assert (a + [separator] + b)[1..] == a[1..] + [separator] + b;
      assert [a[0]] + a[1..] == a;
    } else {
      assert a + [separator] + b == [separator] + b;
    }
  }

  /** A separator-free text is a single piece. */
  lemma {:induction false} SplitPiece(a: string, separator: char)
    requires separator !in a
    ensures Split(a, separator) == [a]
  {
    if |a| > 0 {
      SplitPiece(a[1..], separator);
      assert [a[0]] + a[1..] == a;
    }
  }

  /** Joining separator-free pieces and splitting again gives the pieces. */
  lemma {:induction false} SplitJoin(tokens: seq<string>, separator: char)
    requires |tokens| >= 1
    requires forall i :: 0 <= i < |tokens| ==> separator !in tokens[i]
    ensures Split(Join(tokens, separator), separator) == tokens
  {
    if |tokens| == 1 {
      SplitPiece(tokens[0], separator);
    } else {
      SplitJoin(tokens[1..], separator);
      SplitAfterPiece(tokens[0], separator, Join(tokens[1..], separator));
    }
  }

  lemma JoinThree(a: string, b: string, c: string, separator: char)
    ensures Join([a, b, c], separator) == a + [separator] + b + [separator] + c
  {
    assert [a, b, c][1..] == [b, c];
    assert [b, c][1..] == [c];
    assert Join([c], separator) == c;
    assert Join([b, c], separator) == b + [separator] + c;
  }

  /** The canonical line of a transaction: date, size code and carrier code
      separated by single spaces. */
  function FormatLine(t: Transaction): string
    requires ValidDate(t.date)
  {
    FormatDate(t.date) + " " + SizeName(t.size) + " " + CarrierName(t.carrier)
  }

  /** Parses one input line. It succeeds exactly when the line splits into
      three tokens that are a valid date, a size code and a carrier code, and
      then the line is the canonical line of the parsed transaction. Every
      failure carries the input line unchanged. */
  function Parse(input: string): (r: Result<Transaction>)
    ensures r.Failure? ==> r.error == input
    ensures r.Success? ==> ValidDate(r.value.date) && FormatLine(r.value) == input
  {
    var tokens := Split(input, ' ');
    if |tokens| != 3 then Failure(input)
    else
      match ParseDate(tokens[0])
      case None => Failure(input)
      case Some(date) =>
        var size := ParseSize(tokens[1]);
        if !size.0 then Failure(input)
        else
          var carrier := ParseCarrier(tokens[2]);
          if !carrier.0 then Failure(input)
          else
            assert tokens == [tokens[0], tokens[1], tokens[2]];
            JoinThree(tokens[0], tokens[1], tokens[2], ' ');
            Success(Transaction(date, size.1, carrier.1))
  }

  /** Every transaction with a valid date survives formatting and parsing. */
  lemma ParseFormatLine(t: Transaction)
    requires ValidDate(t.date)
    ensures Parse(FormatLine(t)) == Success(t)
  {
    var tokens := [FormatDate(t.date), SizeName(t.size), CarrierName(t.carrier)];
    assert ' ' !in FormatDate(t.date) by {
      assert FormatDate(t.date)[4] == '-';
      assert forall i :: 0 <= i < 4 ==> FormatDate(t.date)[i] == FormatFixed(t.date.year, 4)[i];
      assert forall i :: 5 <= i < 7 ==> FormatDate(t.date)[i] == FormatFixed(t.date.month, 2)[i - 5];
      assert forall i :: 8 <= i < 10 ==> FormatDate(t.date)[i] == FormatFixed(t.date.day, 2)[i - 8];
    }
    assert ' ' !in SizeName(t.size) && ' ' !in CarrierName(t.carrier);
    JoinThree(tokens[0], tokens[1], tokens[2], ' ');
    SplitJoin(tokens, ' ');
    ParseFormatDate(t.date);
    SizeCodeRoundTrip(t.size);
    CarrierCodeRoundTrip(t.carrier);
  }

  /** The three rejection conditions: the line parses exactly when it has
      three space-separated tokens, the first a valid date, the second one of
      the size codes and the third one of the carrier codes. */
  lemma ParseAccepts(input: string)
    ensures var tokens := Split(input, ' ');
      Parse(input).Success? <==>
        && |tokens| == 3
        && ParseDate(tokens[0]).Some?
        && tokens[1] in {"S", "M", "L"}
        && tokens[2] in {"LP", "MR"}
  {
  }
}
