/**
 * Rust's `{:?}` (Debug) rendering of a `Vec<String>`, restricted to strings
 * that hold no character Debug would escape: `["a", "b"]`, that is the items
 * in double quotes, joined by ", ", inside square brackets.
 */
module DebugFormat {

  /**
   * True when Debug prints `s` unchanged between its quotes: every character is
   * printable ASCII other than the double quote and the backslash.
   */
  predicate NoDebugEscape(s: string)
  {
    forall i :: 0 <= i < |s| ==> ' ' <= s[i] <= '~' && s[i] != '"' && s[i] != '\\'
  }

  /** Every item of the list prints unchanged. */
  predicate Renderable(items: seq<string>)
  {
    forall s :: s in items ==> NoDebugEscape(s)
  }

  /** Debug rendering of one string: its text between double quotes. */
  function Quoted(s: string): string
    requires NoDebugEscape(s)
  {
    "\"" + s + "\""
  }

  /** The quoted items separated by ", ", with no separator before the first or after the last. */
  function JoinQuoted(items: seq<string>): (r: string)
    requires Renderable(items)
    ensures r == "" <==> items == []
    ensures items != [] ==> r[0] == '"' && r[|r| - 1] == '"'
  {
    if |items| == 0 then ""
    else if |items| == 1 then Quoted(items[0])
    else Quoted(items[0]) + ", " + JoinQuoted(items[1..])
  }

  /** Debug rendering of a list of strings. */
  function DebugList(items: seq<string>): (r: string)
    requires Renderable(items)
    ensures |r| >= 2 && r[0] == '[' && r[|r| - 1] == ']'
    ensures items == [] <==> r == "[]"
  {
    "[" + JoinQuoted(items) + "]"
  }

  /** The only double quotes in a rendering are the two that delimit it. */
  lemma QuotedNoInnerQuote(s: string, i: int)
    requires NoDebugEscape(s)
    requires 0 < i < |Quoted(s)| - 1
    ensures Quoted(s)[i] != '"'
  {
    assert Quoted(s)[i] == s[i - 1];
  }

  /** A quoted string determines the string it quotes. */
  lemma QuotedInjective(a: string, b: string)
    requires NoDebugEscape(a) && NoDebugEscape(b)
    ensures Quoted(a) == Quoted(b) ==> a == b
  {
    assert Quoted(a)[1..|Quoted(a)| - 1] == a;
    assert Quoted(b)[1..|Quoted(b)| - 1] == b;
  }

  /** A one-item rendering determines its item. */
  lemma DebugListOneInjective(a: string, b: string)
    requires NoDebugEscape(a) && NoDebugEscape(b)
    requires DebugList([a]) == DebugList([b])
    ensures a == b
  {
    var s := DebugList([a]);
    assert s == "[" + Quoted(a) + "]" == "[" + Quoted(b) + "]";
    assert Quoted(a) == s[1..|s| - 1] == Quoted(b);
    QuotedInjective(a, b);
  }

  /** A two-item rendering, in terms of the quoted items. */
  lemma DebugListTwoShape(a: string, b: string)
    requires NoDebugEscape(a) && NoDebugEscape(b)
    ensures DebugList([a, b]) == "[" + (Quoted(a) + ", " + Quoted(b)) + "]"
  {
    assert [a, b][1..] == [b];
    assert JoinQuoted([b]) == Quoted(b);
    assert JoinQuoted([a, b]) == Quoted(a) + ", " + JoinQuoted([b]);
  }

  /**
   * A two-item rendering determines both items: the first item's closing quote
   * is the first double quote after the opening one, since no quote occurs inside.
   */
  lemma DebugListTwoInjective(a: string, b: string, c: string, d: string)
    requires NoDebugEscape(a) && NoDebugEscape(b) && NoDebugEscape(c) && NoDebugEscape(d)
    requires DebugList([a, b]) == DebugList([c, d])
    ensures a == c && b == d
  {
    var qa, qb, qc, qd := Quoted(a), Quoted(b), Quoted(c), Quoted(d);
    var s := DebugList([a, b]);
    DebugListTwoShape(a, b);
    DebugListTwoShape(c, d);
    if |qa| < |qc| {
      assert s[|qa|] == qa[|qa| - 1] == '"';
      assert s[|qa|] == qc[|qa| - 1];
      QuotedNoInnerQuote(c, |qa| - 1);
      assert false;
    } else if |qc| < |qa| {
      assert s[|qc|] == qc[|qc| - 1] == '"';
      assert s[|qc|] == qa[|qc| - 1];
      QuotedNoInnerQuote(a, |qc| - 1);
      assert false;
    }
    assert qa == s[1..1 + |qa|] == qc;
    QuotedInjective(a, c);
    assert qb == s[|qa| + 3..|s| - 1] == qd;
    QuotedInjective(b, d);
  }

  /** Appending an item to a non-empty list appends a separator and the quoted item to its rendering. */
  lemma {:induction false} JoinQuotedSnoc(items: seq<string>, x: string)
    requires Renderable(items) && NoDebugEscape(x)
    requires items != []
    ensures Renderable(items + [x])
    ensures JoinQuoted(items + [x]) == JoinQuoted(items) + ", " + Quoted(x)
  {
    if |items| == 1 {
      assert (items + [x])[1..] == [x];
    } else {
      assert (items + [x])[1..] == items[1..] + [x];
      JoinQuotedSnoc(items[1..], x);
    }
  }

  /** One item renders as `["x"]`. */
  lemma DebugListOne(a: string)
    requires NoDebugEscape(a)
    ensures DebugList([a]) == "[\"" + a + "\"]"
  {
  }

  /** Regrouping the pieces of a two-item rendering. */
  lemma TwoItemText(a: string, b: string)
    ensures "[" + (("\"" + a + "\"") + ", " + ("\"" + b + "\"")) + "]" == "[\"" + a + "\", \"" + b + "\"]"
  {
  }

  /** Two items render as `["a", "b"]`. */
  lemma DebugListTwo(a: string, b: string)
    requires NoDebugEscape(a) && NoDebugEscape(b)
    ensures DebugList([a, b]) == "[\"" + a + "\", \"" + b + "\"]"
  {
    assert [a, b][1..] == [b];
    assert JoinQuoted([b]) == Quoted(b) == "\"" + b + "\"";
    assert JoinQuoted([a, b]) == Quoted(a) + ", " + JoinQuoted([b]);
    assert Quoted(a) == "\"" + a + "\"";
    TwoItemText(a, b);
  }

}
