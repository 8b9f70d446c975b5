/** The identity text of a routing rule: its index and its name parts, each part with its length in front. */
module RuleIdentity {
  import opened Text

  function EncodePart(part: string): string {
    ":" + Itoa(|part|) + ":" + part
  }

  function EncodeParts(parts: seq<string>): string {
    if parts == [] then "" else EncodePart(parts[0]) + EncodeParts(parts[1..])
  }

  function Identity(index: nat, parts: seq<string>): string {
    Itoa(index) + EncodeParts(parts)
  }

  lemma {:induction false} EncodePartsAppend(parts: seq<string>, last: string)
    ensures EncodeParts(parts + [last]) == EncodeParts(parts) + EncodePart(last)
  {
    if parts == [] {
      assert [last][1..] == [] && [] + [last] == [last];
      assert EncodePart(last) + "" == EncodePart(last);
    } else {
      assert (parts + [last])[1..] == parts[1..] + [last];
      EncodePartsAppend(parts[1..], last);
    }
  }

  method ListenerPolicyRuleIdentity(index: nat, parts: seq<string>) returns (result: string)
    ensures result == Identity(index, parts)
  {
    result := Itoa(index);
    for i := 0 to |parts|
      invariant result == Identity(index, parts[..i])
    {
      EncodePartsAppend(parts[..i], parts[i]);
      assert parts[..i + 1] == parts[..i] + [parts[i]];
      result := result + EncodePart(parts[i]);
    }
    assert parts[..|parts|] == parts;
  }

  /** A number before a colon is read off uniquely. */
  lemma {:induction false} NumberThenColon(a: nat, b: nat, x: string, y: string)
    requires Itoa(a) + ":" + x == Itoa(b) + ":" + y
    ensures a == b && x == y
  {
    assert ':' !in Itoa(a) && ':' !in Itoa(b);
    CutJoined(Itoa(a), ':', x);
    CutJoined(Itoa(b), ':', y);
    ItoaInjective(a, b);
  }

  lemma {:induction false} EncodedStarts(parts: seq<string>)
    requires parts != []
    ensures EncodeParts(parts) == ":" + (Itoa(|parts[0]|) + ":" + (parts[0] + EncodeParts(parts[1..])))
  {
  }

  lemma {:induction false} EncodePartsInjective(a: seq<string>, b: seq<string>)
    requires EncodeParts(a) == EncodeParts(b)
    ensures a == b
  {
    if a != [] && b != [] {
      EncodedStarts(a);
      EncodedStarts(b);
      var x, y := a[0] + EncodeParts(a[1..]), b[0] + EncodeParts(b[1..]);
      assert EncodeParts(a)[1..] == Itoa(|a[0]|) + ":" + x;
      assert EncodeParts(b)[1..] == Itoa(|b[0]|) + ":" + y;
      NumberThenColon(|a[0]|, |b[0]|, x, y);
      assert x[..|a[0]|] == a[0] && y[..|b[0]|] == b[0];
      assert x[|a[0]|..] == EncodeParts(a[1..]) && y[|b[0]|..] == EncodeParts(b[1..]);
      EncodePartsInjective(a[1..], b[1..]);
      assert a == [a[0]] + a[1..] && b == [b[0]] + b[1..];
    }
  }

  /** The part of an identity before its first colon, and the rest, are its index and its encoded parts. */
  lemma {:induction false} IndexIsBeforeColon(index: nat, parts: seq<string>)
    ensures IndexOf(Identity(index, parts), ':') == |Itoa(index)|
  {
    assert ':' !in Itoa(index);
    if parts == [] {
      IndexOfAfter(Itoa(index), ':', "");
      assert Identity(index, parts) == Itoa(index);
    } else {
      EncodedStarts(parts);
      var rest := EncodeParts(parts)[1..];
      assert Identity(index, parts) == Itoa(index) + [':'] + rest;
      IndexOfAfter(Itoa(index), ':', rest);
    }
  }

  /** Different rules have different identities, whatever colons or digits their names hold. */
  lemma {:induction false} IdentityIsInjective(i: nat, a: seq<string>, j: nat, b: seq<string>)
    requires Identity(i, a) == Identity(j, b)
    ensures i == j && a == b
  {
    IndexIsBeforeColon(i, a);
    IndexIsBeforeColon(j, b);
    var text := Identity(i, a);
    assert text[..|Itoa(i)|] == Itoa(i) && text[..|Itoa(j)|] == Itoa(j);
    ItoaInjective(i, j);
    assert text[|Itoa(i)|..] == EncodeParts(a) && text[|Itoa(j)|..] == EncodeParts(b);
    EncodePartsInjective(a, b);
  }
}
