/** The action strings the agents return: "(play x1 y1 x2 y2)" with each
    coordinate written by Java's string concatenation of an int, or "noop".
    The parser below is the reading a game server gives such a string; it
    recovers the move from every play action. */
module Actions {
  import opened Board

  /** The character of a decimal digit. */
  function DigitChar(d: int): char
    requires 0 <= d < 10
  {
    ('0' as int + d) as char
  }

  /** The decimal digits of n, most significant first, without leading zeros. */
  function Digits(n: nat): (s: string)
    ensures |s| >= 1 && forall i :: 0 <= i < |s| ==> '0' <= s[i] <= '9'
    decreases n
  {
    if n < 10 then [DigitChar(n)] else Digits(n / 10) + [DigitChar(n % 10)]
  }

  /** Integer.toString(n): a minus sign for a negative number, then the digits
      of its magnitude. */
  function IntToString(n: int): string {
    if n < 0 then "-" + Digits(-n) else Digits(n)
  }

  /** The words of ws with a single space between neighbours. */
  function Join(ws: seq<string>): string {
    if |ws| == 0 then "" else if |ws| == 1 then ws[0] else ws[0] + " " + Join(ws[1..])
  }

  /** The four coordinates of a move in decimal, source first. */
  function Coords(m: Move): seq<string> {
    [IntToString(m.x1), IntToString(m.y1), IntToString(m.x2), IntToString(m.y2)]
  }

  /** The action string of a move: its four coordinates separated by single
      spaces, inside "(play" and a closing parenthesis. */
  function PlayAction(m: Move): string {
    "(play " + Join(Coords(m)) + ")"
  }

  /** The number a string of decimal digits stands for. */
  function ValueOf(s: string): int
    decreases |s|
  {
    if s == [] then 0 else ValueOf(s[..|s| - 1]) * 10 + (s[|s| - 1] as int - '0' as int)
  }

  /** A number with an optional leading minus sign. */
  function ParseInt(s: string): int {
    if |s| > 0 && s[0] == '-' then -ValueOf(s[1..]) else ValueOf(s)
  }

  /** The pieces of s between single spaces. */
  function Fields(s: string): (r: seq<string>)
    ensures |r| >= 1
    decreases |s|
  {
    if s == [] then [""]
    else
      var rest := Fields(s[1..]);
      if s[0] == ' ' then [""] + rest else [[s[0]] + rest[0]] + rest[1..]
  }

  /** The move of a "(play x1 y1 x2 y2)" action, and None for anything else. */
  function ParsePlay(s: string): Option<Move> {
    if |s| >= 7 && s[..6] == "(play " && s[|s| - 1] == ')' then
      var f := Fields(s[6..|s| - 1]);
      if |f| == 4 then Some(Move(ParseInt(f[0]), ParseInt(f[1]), ParseInt(f[2]), ParseInt(f[3]))) else None
    else None
  }

  /** Reading the digits back gives the number. */
  lemma {:induction false} DigitsRoundTrip(n: nat)
    ensures ValueOf(Digits(n)) == n
    decreases n
  {
    if n >= 10 {
      var s := Digits(n / 10) + [DigitChar(n % 10)];
      assert s[..|s| - 1] == Digits(n / 10);
      DigitsRoundTrip(n / 10);
    }
  }

  /** Integer.toString is read back exactly, and its text has no space. */
  lemma IntRoundTrip(n: int)
    ensures ParseInt(IntToString(n)) == n
    ensures ' ' !in IntToString(n)
  {
    var s := IntToString(n);
    if n < 0 {
      assert s[1..] == Digits(-n);
      DigitsRoundTrip(-n);
    } else {
      DigitsRoundTrip(n);
    }
    assert forall i :: 0 <= i < |s| ==> s[i] != ' ';
  }

  /** A word without a space is one field. */
  lemma {:induction false} FieldsWord(a: string)
    requires ' ' !in a
    ensures Fields(a) == [a]
    decreases |a|
  {
    if a != [] {
      assert a[0] != ' ';
      assert ' ' !in a[1..];
      FieldsWord(a[1..]);
      assert [a[0]] + a[1..] == a;
    }
  }

  /** A word without a space, then a space, starts a new field. */
  lemma {:induction false} FieldsCons(a: string, b: string)
    requires ' ' !in a
    ensures Fields(a + " " + b) == [a] + Fields(b)
    decreases |a|
  {
    if a == [] {
      assert a + " " + b == [' '] + b;
      assert (a + " " + b)[1..] == b;
    } else {
      assert a[0] != ' ';
      assert ' ' !in a[1..];
      assert (a + " " + b)[1..] == a[1..] + " " + b;
      FieldsCons(a[1..], b);
      assert [a[0]] + a[1..] == a;
    }
  }

  /** Splitting words joined by spaces gives the words back, when none of
      them holds a space. */
  lemma {:induction false} FieldsJoin(ws: seq<string>)
    requires |ws| >= 1 && forall k :: 0 <= k < |ws| ==> ' ' !in ws[k]
    ensures Fields(Join(ws)) == ws
    decreases |ws|
  {
    if |ws| == 1 {
      FieldsWord(ws[0]);
    } else {
      FieldsJoin(ws[1..]);
      FieldsCons(ws[0], Join(ws[1..]));
      assert [ws[0]] + ws[1..] == ws;
    }
  }

  /** The parser reads the fields between "(play " and ")". */
  lemma ParseFramed(body: string)
    ensures ParsePlay("(play " + body + ")") ==
            var f := Fields(body);
            if |f| == 4 then Some(Move(ParseInt(f[0]), ParseInt(f[1]), ParseInt(f[2]), ParseInt(f[3]))) else None
  {
    var s := "(play " + body + ")";
    assert s[..6] == "(play ";
    assert s[6..|s| - 1] == body;
  }

  /** Each coordinate's text is spaceless and is read back as the coordinate. */
  lemma CoordsRoundTrip(m: Move)
    ensures |Coords(m)| == 4 && forall k :: 0 <= k < 4 ==> ' ' !in Coords(m)[k]
    ensures ParseInt(Coords(m)[0]) == m.x1 && ParseInt(Coords(m)[1]) == m.y1
    ensures ParseInt(Coords(m)[2]) == m.x2 && ParseInt(Coords(m)[3]) == m.y2
  {
    var ws := Coords(m);
    assert ws[0] == IntToString(m.x1) && ws[1] == IntToString(m.y1);
    assert ws[2] == IntToString(m.x2) && ws[3] == IntToString(m.y2);
    IntRoundTrip(m.x1);
    IntRoundTrip(m.y1);
    IntRoundTrip(m.x2);
    IntRoundTrip(m.y2);
    forall k | 0 <= k < 4
      ensures ' ' !in ws[k]
    {
      if k == 0 {
        assert ws[k] == ws[0];
      } else if k == 1 {
        assert ws[k] == ws[1];
      } else if k == 2 {
        assert ws[k] == ws[2];
      } else {
        assert ws[k] == ws[3];
      }
    }
  }

  /** Every play action is read back as its move. */
  lemma PlayActionParses(m: Move)
    ensures ParsePlay(PlayAction(m)) == Some(m)
  {
    CoordsRoundTrip(m);
    FieldsJoin(Coords(m));
    ParseFramed(Join(Coords(m)));
  }

  /** "noop" is not a play action. */
  lemma NoopIsNotPlay(m: Move)
    ensures ParsePlay("noop") == None
    ensures PlayAction(m) != "noop"
  {
    assert PlayAction(m)[0] == '(';
  }
}
