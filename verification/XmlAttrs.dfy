/** Reading the attributes of an XML start tag (`parse_xml_attrs`, src/plex_client.rs). */
module XmlAttrs {
  import opened Prelude
  import opened Text

  /** `str::find` for a character. */
  function Find(s: string, c: char): (r: Option<nat>)
    ensures r.Some? ==> r.value < |s| && s[r.value] == c && c !in s[..r.value]
    ensures r.None? ==> c !in s
  {
    if s == "" then None
    else if s[0] == c then Some(0)
    else
      match Find(s[1..], c)
      case Some(i) =>
        assert s[..i + 1] == [s[0]] + s[1..][..i];
        Some(i + 1)
      case None => None
  }

  type Attributes = map<string, string>

  /** One turn of the loop: the attribute at the front of `rest` and what follows it. */
  function ReadOne(rest: string): (r: Option<(string, string, string)>)
    ensures r.Some? ==> |r.value.2| < |rest|
  {
    match Find(rest, '=')
    case None => None
    case Some(eq) =>
      var after := TrimStart(rest[eq + 1..]);
      if !StartsWith(after, "\"") then None
      else
        match Find(after[1..], '"')
        case None => None
        case Some(end) => Some((Trim(rest[..eq]), after[1..end + 1], TrimStart(after[end + 2..])))
  }

  function ParseFrom(rest: string, attributes: Attributes): Attributes
    decreases |rest|
  {
    match ReadOne(rest)
    case None => attributes
    case Some((key, value, rest')) => ParseFrom(rest', attributes[key := value])
  }

  lemma ParseStep(rest: string, attributes: Attributes)
    ensures var one := ReadOne(rest);
            ParseFrom(rest, attributes) ==
              if one.None? then attributes else ParseFrom(one.value.2, attributes[one.value.0 := one.value.1])
  {
  }

  /** `parse_xml_attrs`. It ends on every string. */
  method Parse(s: string) returns (attributes: Attributes)
    ensures attributes == ParseFrom(Trim(s), map[])
  {
    attributes := map[];
    var rest := Trim(s);
    while true
      invariant ParseFrom(rest, attributes) == ParseFrom(Trim(s), map[])
      decreases |rest|
    {
      ghost var one := ReadOne(rest);
      ParseStep(rest, attributes);
      var eq := Find(rest, '=');
      if eq.None? {
        break;
      }
      var key := Trim(rest[..eq.value]);
      var after := TrimStart(rest[eq.value + 1..]);
      if !StartsWith(after, "\"") {
        break;
      }
      var end := Find(after[1..], '"');
      if end.None? {
        break;
      }
      var value := after[1..1 + end.value];
      assert one == Some((key, value, TrimStart(after[end.value + 2..])));
      attributes := attributes[key := value];
      rest := TrimStart(after[end.value + 2..]);
    }
  }

  // ----- printing -----

  /** An attribute with the white space XML allows in front of it and around its equals sign
      (section 3.1 of XML 1.0, productions 25 and 41, double-quoted form). */
  datatype Attribute = Attribute(space: string, key: string, before: string, after: string, value: string)

  ghost predicate IsSpace(s: string) {
    forall c | c in s :: IsWhitespace(c)
  }

  ghost predicate Printable(a: Attribute) {
    && IsSpace(a.space) && IsSpace(a.before) && IsSpace(a.after)
    && a.key != "" && NoWhitespace(a.key) && '=' !in a.key && '"' !in a.value
  }

  function Quoted(value: string, more: string): string {
    "\"" + value + "\"" + more
  }

  /** The attribute without the space in front of it, then `more`. */
  function PrintThen(a: Attribute, more: string): string {
    (a.key + a.before) + "=" + (a.after + Quoted(a.value, more))
  }

  function Print(attributes: seq<Attribute>, tail: string): string {
    if attributes == [] then tail
    else attributes[0].space + PrintThen(attributes[0], Print(attributes[1..], tail))
  }

  /** The last attribute of a name wins. */
  function Meaning(attributes: seq<Attribute>, so: Attributes): Attributes
    decreases attributes
  {
    if attributes == [] then so else Meaning(attributes[1..], so[attributes[0].key := attributes[0].value])
  }

  // ----- trimming -----

  lemma {:induction false} TrimStartSkips(space: string, s: string)
    requires IsSpace(space)
    ensures TrimStart(space + s) == TrimStart(s)
  {
    if space == "" {
      assert space + s == s;
    } else {
      assert (space + s)[1..] == space[1..] + s;
      assert space[0] in space;
      TrimStartSkips(space[1..], s);
    }
  }

  lemma {:induction false} TrimEndKeeps(a: string, s: string)
    requires a != "" && !IsWhitespace(a[|a| - 1])
    ensures TrimEnd(a + s) == a + TrimEnd(s)
  {
    if s == "" {
      assert a + s == a;
    } else if IsWhitespace(s[|s| - 1]) {
      assert (a + s)[..|a + s| - 1] == a + s[..|s| - 1];
      TrimEndKeeps(a, s[..|s| - 1]);
    }
  }

  lemma {:induction false} TrimEndSkips(s: string, space: string)
    requires IsSpace(space) && (s == "" || !IsWhitespace(s[|s| - 1]))
    ensures TrimEnd(s + space) == s
  {
    if space == "" {
      assert s + space == s;
    } else {
      assert (s + space)[..|s + space| - 1] == s + space[..|space| - 1];
      assert space[|space| - 1] in space;
      TrimEndSkips(s, space[..|space| - 1]);
    }
  }

  // ----- the round trip -----

  lemma {:induction false} FindFirst(a: string, c: char, b: string)
    requires c !in a
    ensures Find(a + [c] + b, c) == Some(|a|)
  {
    if a == "" {
      assert a + [c] + b == [c] + b;
    } else {
      assert (a + [c] + b)[1..] == a[1..] + [c] + b;
      assert a[0] in a;
      FindFirst(a[1..], c, b);
    }
  }

  lemma FindNone(s: string, c: char)
    requires c !in s
    ensures Find(s, c) == None
  {
  }

  lemma KeyIsTrimmed(a: Attribute)
    requires Printable(a)
    ensures Trim(a.key + a.before) == a.key && '=' !in a.key + a.before
  {
    assert a.key[0] in a.key && a.key[|a.key| - 1] in a.key;
    assert TrimStart(a.key + a.before) == a.key + a.before;
    TrimEndSkips(a.key, a.before);
  }

  /** The loop takes one printed attribute off the front. */
  lemma ReadsPrinted(a: Attribute, more: string)
    requires Printable(a)
    ensures ReadOne(PrintThen(a, more)) == Some((a.key, a.value, TrimStart(more)))
  {
    KeyIsTrimmed(a);
    QuotedStartsHere(a.value, more);
    TrimStartSkips(a.after, Quoted(a.value, more));
    ReadsParts(a.key + a.before, a.after + Quoted(a.value, more), a.value, more);
  }

  lemma ReadsParts(front: string, rest: string, value: string, more: string)
    requires '=' !in front && '"' !in value && TrimStart(rest) == Quoted(value, more)
    ensures ReadOne(front + "=" + rest) == Some((Trim(front), value, TrimStart(more)))
  {
    var s := front + ['='] + rest;
    FindFirst(front, '=', rest);
    assert s[..|front|] == front && s[|front| + 1..] == rest;
    QuotedValue(value, more);
  }

  lemma QuotedStartsHere(value: string, more: string)
    ensures TrimStart(Quoted(value, more)) == Quoted(value, more)
  {
  }

  lemma QuotedValue(value: string, more: string)
    requires '"' !in value
    ensures StartsWith(Quoted(value, more), "\"") && Find(Quoted(value, more)[1..], '"') == Some(|value|)
    ensures Quoted(value, more)[1..|value| + 1] == value && Quoted(value, more)[|value| + 2..] == more
  {
    assert Quoted(value, more)[1..] == value + ['"'] + more;
    FindFirst(value, '"', more);
  }

  ghost predicate AllPrintable(attributes: seq<Attribute>) {
    forall i | 0 <= i < |attributes| :: Printable(attributes[i])
  }

  lemma {:induction false} ParsesPrinted(attributes: seq<Attribute>, tail: string, so: Attributes)
    requires AllPrintable(attributes) && '=' !in tail
    ensures ParseFrom(TrimStart(Print(attributes, tail)), so) == Meaning(attributes, so)
    decreases attributes
  {
    if attributes == [] {
      TrimStartKeepsOut(tail, '=');
      FindNone(TrimStart(tail), '=');
    } else {
      var a, more := attributes[0], Print(attributes[1..], tail);
      StartsAtKey(a, more);
      ReadsPrinted(a, more);
      ParsesPrinted(attributes[1..], tail, so[a.key := a.value]);
    }
  }

  lemma StartsAtKey(a: Attribute, more: string)
    requires Printable(a)
    ensures TrimStart(a.space + PrintThen(a, more)) == PrintThen(a, more)
  {
    TrimStartSkips(a.space, PrintThen(a, more));
    assert PrintThen(a, more)[0] == a.key[0] && a.key[0] in a.key;
  }

  /** Trimming the end touches only what follows the last closing quote. */
  lemma {:induction false} TrimEndOfPrinted(attributes: seq<Attribute>, tail: string)
    requires attributes != []
    ensures TrimEnd(Print(attributes, tail)) == Print(attributes, TrimEnd(tail))
  {
    var a := attributes[0];
    TrimEndInside(a, Print(attributes[1..], tail));
    if |attributes| > 1 {
      TrimEndOfPrinted(attributes[1..], tail);
    }
  }

  lemma TrimEndInside(a: Attribute, more: string)
    ensures TrimEnd(a.space + PrintThen(a, more)) == a.space + PrintThen(a, TrimEnd(more))
  {
    var front := a.space + PrintThen(a, "");
    assert front[|front| - 1] == '"';
    assert a.space + PrintThen(a, more) == front + more;
    assert a.space + PrintThen(a, TrimEnd(more)) == front + TrimEnd(more);
    TrimEndKeeps(front, more);
  }

  /** Parsing undoes printing: for any attributes, however spaced, the map of the last value of each
      name; whatever follows without an equals sign, such as the slash of an empty element, is
      ignored. */
  lemma ParseUndoesPrint(attributes: seq<Attribute>, tail: string)
    requires AllPrintable(attributes) && '=' !in tail
    ensures ParseFrom(Trim(Print(attributes, tail)), map[]) == Meaning(attributes, map[])
  {
    if attributes == [] {
      TrimStartKeepsOut(tail, '=');
      TrimEndKeepsOut(TrimStart(tail), '=');
      FindNone(Trim(tail), '=');
    } else {
      TrimCommutes(attributes, tail);
      TrimEndKeepsOut(tail, '=');
      ParsesPrinted(attributes, TrimEnd(tail), map[]);
    }
  }

  lemma TrimCommutes(attributes: seq<Attribute>, tail: string)
    requires AllPrintable(attributes) && attributes != []
    ensures Trim(Print(attributes, tail)) == TrimStart(Print(attributes, TrimEnd(tail)))
  {
    var a := attributes[0];
    var trimmed := attributes[0 := a.(space := "")];
    StartsAtKey(a, Print(attributes[1..], tail));
    StartsAtKey(a, Print(attributes[1..], TrimEnd(tail)));
    assert trimmed[1..] == attributes[1..];
    assert Print(trimmed, tail) == PrintThen(a, Print(attributes[1..], tail));
    assert Print(trimmed, TrimEnd(tail)) == PrintThen(a, Print(attributes[1..], TrimEnd(tail)));
    TrimEndOfPrinted(trimmed, tail);
  }

  /** A name means the value of its last attribute. */
  lemma {:induction false} LastAttributeWins(attributes: seq<Attribute>, i: nat, so: Attributes)
    requires i < |attributes| && forall j | i < j < |attributes| :: attributes[j].key != attributes[i].key
    ensures attributes[i].key in Meaning(attributes, so)
    ensures Meaning(attributes, so)[attributes[i].key] == attributes[i].value
    decreases attributes
  {
    var next := so[attributes[0].key := attributes[0].value];
    if i > 0 {
      LastAttributeWins(attributes[1..], i - 1, next);
    } else {
      OtherNamesStay(attributes[1..], attributes[0].key, next);
    }
  }

  lemma {:induction false} OtherNamesStay(attributes: seq<Attribute>, key: string, so: Attributes)
    requires key in so && forall j | 0 <= j < |attributes| :: attributes[j].key != key
    ensures key in Meaning(attributes, so) && Meaning(attributes, so)[key] == so[key]
    decreases attributes
  {
    if attributes != [] {
      OtherNamesStay(attributes[1..], key, so[attributes[0].key := attributes[0].value]);
    }
  }
}
