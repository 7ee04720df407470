/**
 Identifier octets as ITU-T X.690, section 8.1.2, builds them from class, form and tag number,
 and what the rewriter does with a value by its class, form and tag number.
 */
module BerIdentifiers {
  import opened Bytes
  import opened Seqs
  import opened BerToDer
  import opened BerTheory
  import opened BerGrammar

  // The leading octet: two bits of class, one for constructed, five of number.
  function LeadOctet(cls: nat, constructed: bool, number: nat): byte
    requires cls < 4 && number < 32
  {
    64 * cls + (if constructed then 32 else 0) + number
  }

  // A number in base 128, all octets but the last with their top bit set.
  function Base128(n: nat): (s: seq<byte>)
    ensures s != []
  {
    Continued(n / 128) + [n % 128]
  }

  function Continued(n: nat): seq<byte> {
    if n == 0 then [] else Continued(n / 128) + [128 + n % 128]
  }

  // Numbers from 31 on follow a leading octet with all five bits set.
  function IdentifierOctets(cls: nat, constructed: bool, number: nat): (tag: Tag)
    requires cls < 4
  {
    if number < 31 then [LeadOctet(cls, constructed, number)]
    else [LeadOctet(cls, constructed, 31)] + Base128(number)
  }

  // ---------- the leading octet is taken apart into what it was built from ----------

  lemma LeadParts(cls: nat, constructed: bool, number: nat)
    requires cls < 4 && number < 32
    ensures var b := LeadOctet(cls, constructed, number);
            Class(b) == cls && Constructed(b) == constructed && TagNumber(b) == number
    ensures ClearConstructed(LeadOctet(cls, constructed, number)) == LeadOctet(cls, false, number)
  {
  }

  // Every octet is one.
  lemma LeadOf(b: byte)
    ensures Class(b) < 4 && TagNumber(b) < 32 && b == LeadOctet(Class(b), Constructed(b), TagNumber(b))
  {
  }

  // ---------- identifiers are split off ----------

  lemma {:induction false} ContinuedShape(n: nat)
    ensures forall i :: 0 <= i < |Continued(n)| ==> Continued(n)[i] >= 128
  {
    if n > 0 {
      ContinuedShape(n / 128);
    }
  }

  lemma IdentifierShape(cls: nat, constructed: bool, number: nat)
    requires cls < 4
    ensures var tag := IdentifierOctets(cls, constructed, number);
            && TagShape(tag) && Class(tag[0]) == cls && Constructed(tag[0]) == constructed
            && (number < 31 ==> tag == [LeadOctet(cls, constructed, number)])
            && TagNumber(tag[0]) == (if number < 31 then number else 31)
  {
    var tag := IdentifierOctets(cls, constructed, number);
    LeadParts(cls, constructed, if number < 31 then number else 31);
    if number >= 31 {
      ContinuedShape(number / 128);
      var digits := Base128(number);
      assert tag[|tag| - 1] == digits[|digits| - 1] == number % 128;
      forall i | 1 <= i < |tag| - 1 ensures tag[i] >= 128 {
        assert tag[i] == Continued(number / 128)[i - 1];
      }
    }
  }

  // Whatever the class, the form and the number, the identifier is split off, and nothing more.
  lemma SplitsIdentifier(cls: nat, constructed: bool, number: nat, rest: seq<byte>)
    requires cls < 4
    ensures var r := TagOf(IdentifierOctets(cls, constructed, number) + rest);
            r.Ok? && r.value.tag == IdentifierOctets(cls, constructed, number) && r.value.rest == rest
  {
    IdentifierShape(cls, constructed, number);
    ReadsTag(IdentifierOctets(cls, constructed, number), rest);
  }

  // ---------- what is written, by class, form and number ----------

  // Identifier and length, contents, and the end marker if the length is indefinite.
  function Written(tag: Tag, form: Form, content: seq<byte>): seq<byte> {
    tag + (LengthOctets(form, |content|) + (content + EndMarker(form)))
  }

  lemma OneValue(v: Loose)
    requires Readable(v) && !v.Marker?
    ensures var r := Normal(EncLoose(v)); r.Ok? && r.value == EncDer(CanonLoose(v))
  {
    assert [v][1..] == [];
    assert EncLooseAll([v]) == EncLoose(v) + [] == EncLoose(v);
    NormalLoose([v]);
    CanonFirst([v]);
    assert EncDer(CanonLoose(v)) + [] == EncDer(CanonLoose(v));
  }

  // A primitive value is written with its identifier and its contents as they are.
  lemma PrimitiveStays(cls: nat, number: nat, content: seq<byte>, form: Form)
    requires cls < 4 && (cls > 0 || number > 0) && !form.Open? && FormFits(form, |content|)
    ensures var tag := IdentifierOctets(cls, false, number);
            var r := Normal(Written(tag, form, content));
            r.Ok? && r.value == tag + (DerLength(|content|) + content)
  {
    var tag := IdentifierOctets(cls, false, number);
    IdentifierShape(cls, false, number);
    var v := Simple(tag, content, form);
    OneValue(v);
    Assoc(tag, DerLength(|content|), content);
  }

  // A constructed value is written with its identifier and its contents rewritten, unless it is
  // a BIT STRING or OCTET STRING, or context-specific with only primitive OCTET STRINGs inside.
  lemma ConstructedKept(cls: nat, number: nat, kids: seq<Loose>, form: Form)
    requires cls < 4 && ReadableAll(kids) && FormFits(form, |EncLooseAll(kids)|) && (form.Open? ==> NoMarker(kids))
    requires !(cls == 0 && number in {3, 4}) && !(cls == 2 && kids != [] && AllOctetStringSimple(kids))
    ensures var tag := IdentifierOctets(cls, true, number);
            var r, inner := Normal(Written(tag, form, EncLooseAll(kids))), Normal(EncLooseAll(kids));
            r.Ok? && inner.Ok? && r.value == tag + (DerLength(|inner.value|) + inner.value)
  {
    var tag := IdentifierOctets(cls, true, number);
    IdentifierShape(cls, true, number);
    StringLead(cls, true, number);
    var v := Compound(tag, kids, form);
    OneValue(v);
    NormalLoose(kids);
    Assoc(tag, DerLength(|EncDerAll(CanonLooseAll(kids))|), EncDerAll(CanonLooseAll(kids)));
  }

  lemma StringLead(cls: nat, constructed: bool, number: nat)
    requires cls < 4
    ensures StringNode(IdentifierOctets(cls, constructed, number)) <==> constructed && cls == 0 && number in {3, 4}
  {
    IdentifierShape(cls, constructed, number);
    LeadOf(IdentifierOctets(cls, constructed, number)[0]);
    StringBits(IdentifierOctets(cls, constructed, number)[0]);
  }

  // A BIT STRING or OCTET STRING of segments is written as the primitive value of its segments
  // joined; so is a context-specific value of primitive OCTET STRINGs, under its own number.
  lemma ConstructedFlattened(cls: nat, number: nat, kids: seq<Loose>, form: Form)
    requires number < 31 && ReadableAll(kids) && FormFits(form, |EncLooseAll(kids)|) && (form.Open? ==> NoMarker(kids))
    requires (cls == 0 && number in {3, 4} && AllSegments(kids, number))
          || (cls == 2 && kids != [] && AllOctetStringSimple(kids))
    ensures var joined := LooseContents(kids);
            var r := Normal(Written(IdentifierOctets(cls, true, number), form, EncLooseAll(kids)));
            r.Ok? && r.value == IdentifierOctets(cls, false, number) + (DerLength(|joined|) + joined)
  {
    var tag := IdentifierOctets(cls, true, number);
    IdentifierShape(cls, true, number);
    LeadParts(cls, true, number);
    StringLead(cls, true, number);
    var v := Compound(tag, kids, form);
    OneValue(v);
    Assoc([ClearConstructed(tag[0])], DerLength(|LooseContents(kids)|), LooseContents(kids));
  }

  const EMPTY_SEQUENCE: Loose := Compound([0x30], [], Open)

  lemma EmptySequence()
    ensures Readable(EMPTY_SEQUENCE) && ReadableAll([EMPTY_SEQUENCE]) && NoMarker([EMPTY_SEQUENCE])
    ensures EncLooseAll([EMPTY_SEQUENCE]) == EncLoose(EMPTY_SEQUENCE) == [0x30, 0x80, 0x00, 0x00]
  {
    assert Constructed(0x30) && TagNumber(0x30) == 16;
    assert [EMPTY_SEQUENCE][1..] == [];
    assert EncLoose(EMPTY_SEQUENCE) == [0x30] + ([128] + ([] + [0, 0]));
  }

  lemma SequenceRewritten()
    ensures var r := Normal([0x30, 0x80, 0x00, 0x00]); r.Ok? && r.value == [0x30, 0x00]
  {
    EmptySequence();
    OneValue(EMPTY_SEQUENCE);
    assert Class(0x30) == 0 && !LooseFlattens([0x30], []);
    assert EncDer(CanonLoose(EMPTY_SEQUENCE)) == [0x30] + [0] + [];
  }

  // A SET of indefinite length around an empty SEQUENCE of indefinite length.
  lemma SetRewritten()
    ensures var r := Normal([0x31, 0x80, 0x30, 0x80, 0x00, 0x00, 0x00, 0x00]);
            r.Ok? && r.value == [0x31, 0x02, 0x30, 0x00]
  {
    EmptySequence();
    SequenceRewritten();
    ConstructedKept(0, 17, [EMPTY_SEQUENCE], Open);
    SetOctets();
  }

  lemma SetOctets()
    ensures Written(IdentifierOctets(0, true, 17), Open, [0x30, 0x80, 0x00, 0x00])
         == [0x31, 0x80, 0x30, 0x80, 0x00, 0x00, 0x00, 0x00]
    ensures IdentifierOctets(0, true, 17) + (DerLength(|[0x30, 0x00]|) + [0x30, 0x00]) == [0x31, 0x02, 0x30, 0x00]
  {
    assert IdentifierOctets(0, true, 17) == [0x31] && DerLength(2) == [0x02];
    assert [0x30, 0x80, 0x00, 0x00] + [0x00, 0x00] == [0x30, 0x80, 0x00, 0x00, 0x00, 0x00];
  }
}
