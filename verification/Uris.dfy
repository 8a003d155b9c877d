/** URIs, their byte form and the parser that reads them back (turtle/handle.go).
    Bytes are represented by the characters of the string. */
module Uris {

  datatype URI = URI(ns: string, value: string)

  /** `Bytes` and `String` produce the same characters in the source. */
  function Bytes(u: URI): string {
    if u.ns != "" then u.ns + "#" + u.value else u.value
  }

  predicate IsVariable(u: URI) {
    "?" <= u.value
  }

  // ---- the parts of Go's strings package that ParseURI uses ----

  function TrimLeft(s: string, c: char): string {
    if s != "" && s[0] == c then TrimLeft(s[1..], c) else s
  }

  function TrimRight(s: string, c: char): string {
    if s != "" && s[|s| - 1] == c then TrimRight(s[..|s| - 1], c) else s
  }

  predicate HasSuffix(s: string, t: string) {
    |t| <= |s| && s[|s| - |t|..] == t
  }

  function TrimSuffix(s: string, t: string): string {
    if HasSuffix(s, t) then s[..|s| - |t|] else s
  }

  function Index(s: string, c: char): (i: nat)
    requires c in s
    ensures i < |s| && s[i] == c && c !in s[..i]
  {
    if s[0] == c then 0 else
      var i := 1 + Index(s[1..], c);
      assert s[..i] == [s[0]] + s[1..][..i - 1];
      i
  }

  function Split(s: string, c: char): (parts: seq<string>)
    ensures |parts| >= 1
    ensures |parts| == 1 <==> c !in s
  {
    if c !in s then [s] else [s[..Index(s, c)]] + Split(s[Index(s, c) + 1..], c)
  }

  // ---- ParseURI ----

  const EN := "@en"

  /** What is left once `ParseURI` has decided that the text is a literal. */
  function Literal(s: string): URI {
    URI("", TrimSuffix(TrimRight(TrimLeft(s, '"'), '"'), EN))
  }

  function ParseURI(text: string): URI {
    ParseTrimmed(TrimRight(TrimLeft(text, '<'), '>'))
  }

  /** `ParseURI` once the angle brackets are off. */
  function ParseTrimmed(s: string): URI {
    var parts := Split(s, '#');
    if |parts| == 2 then URI(TrimRight(parts[0], '#'), parts[1])
    else if "\"" <= s then Literal(s)
    else if ':' in s then URI(s[..Index(s, ':')], s[Index(s, ':') + 1..])
    else Literal(s)
  }

  /** Exactly the URIs that survive being written and parsed again. */
  predicate WellFormed(u: URI) {
    if u.ns != "" then
      && '#' !in u.ns && '#' !in u.value
      && u.ns[0] != '<' && (u.value == "" || u.value[|u.value| - 1] != '>')
    else
      && |Split(u.value, '#')| != 2 && ':' !in u.value
      && (u.value != "" ==> u.value[0] !in "<\"" && u.value[|u.value| - 1] !in ">\"")
      && !HasSuffix(u.value, EN)
  }

  lemma {:induction false} TrimLeftShape(s: string, c: char)
    ensures |TrimLeft(s, c)| <= |s|
    ensures TrimLeft(s, c) == s <==> s == "" || s[0] != c
    ensures |TrimLeft(s, c)| == |s| ==> TrimLeft(s, c) == s
  {
    if s != "" && s[0] == c {
      TrimLeftShape(s[1..], c);
    }
  }

  lemma {:induction false} TrimRightShape(s: string, c: char)
    ensures |TrimRight(s, c)| <= |s|
    ensures TrimRight(s, c) == s <==> s == "" || s[|s| - 1] != c
    ensures |TrimRight(s, c)| == |s| ==> TrimRight(s, c) == s
  {
    if s != "" && s[|s| - 1] == c {
      TrimRightShape(s[..|s| - 1], c);
    }
  }

  /** A text splits in two at `c` only when it is two `c`-free halves around one `c` ... */
  lemma SplitInTwo(s: string, c: char)
    requires |Split(s, c)| == 2
    ensures s == Split(s, c)[0] + [c] + Split(s, c)[1]
    ensures c !in Split(s, c)[0] && c !in Split(s, c)[1]
  {
    var i := Index(s, c);
    assert s == s[..i] + [c] + s[i + 1..];
  }

  /** ... and then always. */
  lemma SplitAt(a: string, c: char, b: string)
    requires c !in a && c !in b
    ensures Split(a + [c] + b, c) == [a, b]
  {
    var s := a + [c] + b;
    assert s[|a|] == c && s[..|a|] == a;
    var i := Index(s, c);
    assert i == |a|;
    assert s[i + 1..] == b;
  }

  /** The value `ParseURI` keeps is never longer than the trimmed text. */
  lemma LiteralShape(s: string)
    ensures Literal(s).ns == "" && |Literal(s).value| <= |s|
    ensures Literal(s).value == s <==>
              (s != "" ==> s[0] != '"' && s[|s| - 1] != '"') && !HasSuffix(s, EN)
  {
    TrimLeftShape(s, '"');
    TrimRightShape(TrimLeft(s, '"'), '"');
  }

  /** Every namespace `ParseURI` finds was cut off at a '#' or a ':' of the trimmed text. */
  lemma ParsedShape(text: string)
    requires ParseURI(text).ns != ""
    ensures var r := ParseURI(text);
            var s := TrimRight(TrimLeft(text, '<'), '>');
            || (s == r.ns + ['#'] + r.value && '#' !in r.ns && '#' !in r.value)
            || s == r.ns + [':'] + r.value
  {
    var s := TrimRight(TrimLeft(text, '<'), '>');
    if |Split(s, '#')| == 2 {
      SplitInTwo(s, '#');
      TrimRightShape(Split(s, '#')[0], '#');
    }
  }

  /** Trimming never makes a text longer, and keeps its length only if it keeps the text. */
  lemma TrimShape(text: string)
    ensures var s := TrimRight(TrimLeft(text, '<'), '>');
            && |s| <= |text|
            && (|s| == |text| <==> s == text)
            && (s == text <==> text == "" || (text[0] != '<' && text[|text| - 1] != '>'))
  {
    TrimLeftShape(text, '<');
    TrimRightShape(TrimLeft(text, '<'), '>');
  }

  lemma QualifiedReadsBack(u: URI)
    requires u.ns != "" && WellFormed(u)
    ensures ParseURI(Bytes(u)) == u
  {
    hide TrimLeft, Split;
    var text := Bytes(u);
    assert text == u.ns + ['#'] + u.value && text[0] == u.ns[0];
    assert text[|text| - 1] == if u.value == "" then '#' else u.value[|u.value| - 1];
    TrimShape(text);
    SplitAt(u.ns, '#', u.value);
    TrimRightShape(u.ns, '#');
    hide TrimRight;
  }

  lemma QualifiedRoundTrip(u: URI)
    requires u.ns != ""
    ensures ParseURI(Bytes(u)) == u <==> WellFormed(u)
  {
    var text := Bytes(u);
    assert text[|u.ns|] == '#' && text[0] == u.ns[0];
    if WellFormed(u) {
      QualifiedReadsBack(u);
    } else if ParseURI(text) == u {
      var left := TrimLeft(text, '<');
      ParsedShape(text);
      TrimLeftShape(text, '<');
      TrimRightShape(left, '>');
      assert false;
    }
  }

  /** The value read from a trimmed text is no longer than the text. */
  lemma ValueShape(s: string)
    ensures |ParseTrimmed(s).value| <= |s|
    ensures |Split(s, '#')| == 2 ==> |ParseTrimmed(s).value| < |s|
  {
    hide Split, Literal, TrimRight;
    LiteralShape(s);
    if |Split(s, '#')| == 2 {
      SplitInTwo(s, '#');
    }
  }

  /** A trimmed text is read as itself exactly if nothing in it is split off. */
  lemma TrimmedReadsBack(s: string)
    ensures ParseTrimmed(s) == URI("", s) <==>
              && |Split(s, '#')| != 2 && ':' !in s
              && (s != "" ==> s[0] != '"' && s[|s| - 1] != '"') && !HasSuffix(s, EN)
  {
    hide Split, Literal, TrimRight, HasSuffix;
    LiteralShape(s);
    ValueShape(s);
  }

  lemma BareRoundTrip(u: URI)
    requires u.ns == ""
    ensures ParseURI(Bytes(u)) == u <==> WellFormed(u)
  {
    hide ParseTrimmed, TrimLeft, TrimRight, HasSuffix, Split;
    var s := TrimRight(TrimLeft(u.value, '<'), '>');
    TrimShape(u.value);
    TrimmedReadsBack(s);
    ValueShape(s);
  }

  /** Parsing undoes printing exactly on the well-formed URIs. */
  lemma RoundTrip(u: URI)
    ensures ParseURI(Bytes(u)) == u <==> WellFormed(u)
  {
    if u.ns != "" {
      QualifiedRoundTrip(u);
    } else {
      BareRoundTrip(u);
    }
  }

  /** A name read back from its written form is a variable exactly if its value begins with a
      question mark, in whatever namespace. */
  lemma ReadVariableIff(u: URI)
    requires WellFormed(u)
    ensures IsVariable(ParseURI(Bytes(u))) <==> u.value != "" && u.value[0] == '?'
  {
    RoundTrip(u);
  }

  /** A well-formed URI is determined by its bytes. */
  lemma BytesInjective(u: URI, v: URI)
    requires WellFormed(u) && WellFormed(v) && Bytes(u) == Bytes(v)
    ensures u == v
  {
    RoundTrip(u);
    RoundTrip(v);
  }

  /** Two different URIs can share their bytes, if one of them is ill-formed. */
  lemma BytesCollide()
    ensures exists u: URI, v: URI :: u != v && Bytes(u) == Bytes(v) && !WellFormed(u) && WellFormed(v)
  {
    var u, v := URI("", "a#b"), URI("a", "b");
    assert Bytes(u) == Bytes(v);
    SplitAt("a", '#', "b");
    assert u.value == "a" + ['#'] + "b";
  }

  /** The literal "a:b" is added under the bytes a:b, which read back as a qualified name
      with other bytes. */
  lemma LiteralReadsBackElsewhere()
    ensures ParseURI("\"a:b\"") == URI("", "a:b") && Bytes(URI("", "a:b")) == "a:b"
    ensures ParseURI("a:b") == URI("a", "b") && Bytes(URI("a", "b")) == "a#b"
  {
    hide ParseTrimmed, TrimLeft, TrimRight;
    TrimShape("\"a:b\"");
    TrimShape("a:b");
    LiteralParses();
    NameParses();
    assert Bytes(URI("a", "b")) == "a#b";
  }

  lemma LiteralParses()
    ensures ParseTrimmed("\"a:b\"") == URI("", "a:b")
  {
    hide Literal;
    QuotesOff();
    assert '#' !in "\"a:b\"";
  }

  lemma NameParses()
    ensures ParseTrimmed("a:b") == URI("a", "b")
  {
    hide Literal;
    assert '#' !in "a:b" && "a:b"[1] == ':' && "a:b"[0] == 'a';
    assert Index("a:b", ':') == 1;
    assert "a:b"[..1] == "a" && "a:b"[2..] == "b";
  }

  lemma QuotesOff()
    ensures Literal("\"a:b\"") == URI("", "a:b")
  {
    var quoted := "\"a:b\"";
    assert quoted[1..] == "a:b\"";
    assert TrimLeft(quoted, '"') == TrimLeft("a:b\"", '"') == "a:b\"";
    assert "a:b\""[..3] == "a:b";
    assert TrimRight("a:b\"", '"') == TrimRight("a:b", '"') == "a:b";
    assert "a:b"[0..] == "a:b" && 'a' != '@';
    assert !HasSuffix("a:b", EN);
  }
}
