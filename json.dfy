/** The part of `json.dumps` the evoting.py variant relies on: writing a
    string value as a JSON string literal, and a reader that takes such a
    literal back apart, so that the signed message can be shown to determine
    the fields it was built from. */
module Json {
  import opened Common

  /** One character of a string literal: a quote and a backslash are
      preceded by a backslash, every other character stands for itself. */
  function EscapeChar(ch: char): string {
    if ch == '"' || ch == '\\' then ['\\', ch] else [ch]
  }

  /** Every character, each one or two long once escaped. */
  function Escape(s: string): (r: string)
    ensures |s| <= |r| <= 2 * |s|
  {
    if s == [] then [] else EscapeChar(s[0]) + Escape(s[1..])
  }

  /** `json.dumps` of a string value: the escaped characters between quotes.
      It is at least two characters longer than `s`, and reading it as a
      literal gives back `s` with nothing left over. */
  function DumpString(s: string): (r: string)
    ensures |r| >= |s| + 2
    ensures ReadLiteral(r) == Some((s, []))
  {
    ReadDumped(s, []);
    var r := "\"" + Escape(s) + "\"";
    assert r[1..] == Escape(s) + "\"" + [];
    r
  }

  /** Reads the rest of a string literal whose opening quote has already been
      read: the characters up to the first unescaped quote, and what follows
      that quote. None when the literal is not closed. */
  function ReadString(t: string): Option<(string, string)>
    decreases |t|
  {
    if t == [] then None
    else if t[0] == '"' then Some(([], t[1..]))
    else
      var width := if t[0] == '\\' then 2 else 1;
      if |t| < width then None
      else
        match ReadString(t[width..])
        case None => None
        case Some((s, rest)) => Some(([t[width - 1]] + s, rest))
  }

  /** Reads a string literal at the start of `t`: its value and the text
      after its closing quote. */
  function ReadLiteral(t: string): Option<(string, string)> {
    if t != [] && t[0] == '"' then ReadString(t[1..]) else None
  }

  /** A dumped string followed by any text reads back as that string,
      leaving the text. */
  lemma ReadLiteralDumped(s: string, rest: string)
    ensures ReadLiteral(DumpString(s) + rest) == Some((s, rest))
  {
    ReadDumped(s, rest);
    assert (DumpString(s) + rest)[1..] == Escape(s) + "\"" + rest;
  }

  /** Reading back an escaped string recovers it and leaves what follows its
      closing quote untouched. */
  lemma {:induction false} ReadDumped(s: string, rest: string)
    ensures ReadString(Escape(s) + "\"" + rest) == Some((s, rest))
  {
    if s == [] {
      assert Escape(s) + "\"" + rest == "\"" + rest;
    } else {
      ReadDumped(s[1..], rest);
      var tail := Escape(s[1..]) + "\"" + rest;
      var t := Escape(s) + "\"" + rest;
      assert t == EscapeChar(s[0]) + tail;
      var width := |EscapeChar(s[0])|;
      assert t[0] != '"' && (t[0] == '\\' <==> width == 2);
      assert t[width..] == tail && t[width - 1] == s[0];
      assert [s[0]] + s[1..] == s;
    }
  }
}
