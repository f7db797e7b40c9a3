/** A wasm module as its section list: parsing, stripping and appending custom sections
    (section 5.5 of the WebAssembly Core Specification 2.0).  Section names are byte strings. */
module WasmModule {
  import opened Options
  import opened Leb128

  /** A section with the spelling of its size kept. */
  datatype Section = Section(id: Byte, size: Bytes, payload: Bytes)

  /** The start of a custom section's payload: name length, name, and the data behind it. */
  datatype Custom = Custom(nameLength: Bytes, name: Bytes, data: Bytes)

  const HEADER: Bytes := [0x00, 0x61, 0x73, 0x6d, 0x01, 0x00, 0x00, 0x00]

  // ----- the text of a module ------------------------------------------------------------------

  function Raw(x: Section): (r: Bytes)
    ensures |r| == 1 + |x.size| + |x.payload|
  {
    [x.id] + x.size + x.payload
  }

  function Emit(xs: seq<Section>): Bytes {
    if |xs| == 0 then [] else Raw(xs[0]) + Emit(xs[1..])
  }

  /** Split a custom section's payload at its name, if the name fits in it. */
  function CustomOf(payload: Bytes): (r: Option<Custom>)
    ensures r.Some? ==> payload == r.value.nameLength + r.value.name + r.value.data
  {
    match Decode(payload)
    case None => None
    case Some(l) =>
      if l.length + l.value > |payload| then None
      else Some(Custom(payload[..l.length], payload[l.length..l.length + l.value], payload[l.length + l.value..]))
  }

  predicate IsCustom(x: Section, name: Bytes) {
    x.id == 0 && CustomOf(x.payload).Some? && CustomOf(x.payload).value.name == name
  }

  /** The size field spells the payload's length, and a custom section has a name. */
  predicate WellFormed(x: Section) {
    && Decode(x.size) == Some(Leb(|x.payload|, |x.size|))
    && (x.id == 0 ==> CustomOf(x.payload).Some?)
  }

  ghost predicate AllWellFormed(xs: seq<Section>) {
    forall i: nat :: i < |xs| ==> WellFormed(xs[i])
  }

  // ----- parsing ----------------------------------------------------------------------------------

  /** The section at the front of `s`.  A custom section's name length is read from the bytes
      that follow, even past the section's end, before the name is held to the payload. */
  function ParseSection(s: Bytes): (r: Option<Section>)
    requires |s| > 0
    ensures r.Some? ==> 0 < |Raw(r.value)| <= |s| && Raw(r.value) == s[..|Raw(r.value)|]
  {
    match Decode(s[1..])
    case None => None
    case Some(l) =>
      var start := 1 + l.length;
      if start + l.value > |s| then None
      else if s[0] == 0 && !NameFits(s[start..], l.value) then None
      else
        var x := Section(s[0], s[1..start], s[start..start + l.value]);
        assert Raw(x) == s[..start + l.value];
        Some(x)
  }

  predicate NameFits(tail: Bytes, size: nat) {
    match Decode(tail)
    case None => false
    case Some(l) => l.length + l.value <= size
  }

  function ParseSections(s: Bytes): Option<seq<Section>>
    decreases |s|
  {
    if |s| == 0 then Some([])
    else
      match ParseSection(s)
      case None => None
      case Some(x) =>
        match ParseSections(s[|Raw(x)|..])
        case None => None
        case Some(xs) => Some([x] + xs)
  }

  /** The sections of a module, or nothing if the bytes are not a version-1 module. */
  function ParseModule(bytes: Bytes): Option<seq<Section>> {
    if |bytes| < 8 || bytes[..8] != HEADER then None else ParseSections(bytes[8..])
  }

  /** Held to its payload, the name reads the same as from the whole tail. */
  lemma NameIsLocal(payload: Bytes, rest: Bytes)
    ensures NameFits(payload + rest, |payload|) <==> CustomOf(payload).Some?
  {
    if Decode(payload).Some? {
      DecodeExtends(payload, rest);
    }
    if NameFits(payload + rest, |payload|) {
      DecodeShorter(payload, rest, MAX_LEB_BYTES);
    }
  }

  lemma ParsedIsWellFormed(s: Bytes)
    requires |s| > 0 && ParseSection(s).Some?
    ensures WellFormed(ParseSection(s).value)
  {
    var x := ParseSection(s).value;
    var l := Decode(s[1..]).value;
    var start := 1 + l.length;
    DecodeIsLocal(s[1..], [], MAX_LEB_BYTES);
    assert s[1..][..l.length] + [] == x.size;
    assert s[start..] == x.payload + s[start + l.value..];
    NameIsLocal(x.payload, s[start + l.value..]);
  }

  lemma RawParses(x: Section, t: Bytes)
    requires WellFormed(x)
    ensures ParseSection(Raw(x) + t) == Some(x)
  {
    var s := Raw(x) + t;
    assert s[1..] == x.size + (x.payload + t);
    DecodeExtends(x.size, x.payload + t);
    var start := 1 + |x.size|;
    assert s[start..] == x.payload + t;
    assert s[1..start] == x.size && s[start..start + |x.payload|] == x.payload;
    NameIsLocal(x.payload, t);
  }

  /** Sections tile the bytes: what parses is the concatenation of its sections. */
  lemma {:induction false} SectionsTile(s: Bytes)
    requires ParseSections(s).Some?
    ensures Emit(ParseSections(s).value) == s
    ensures AllWellFormed(ParseSections(s).value)
    decreases |s|
  {
    hide Raw, ParseSection, WellFormed;
    if |s| > 0 {
      var x := ParseSection(s).value;
      ParsedIsWellFormed(s);
      SectionsTile(s[|Raw(x)|..]);
      var xs := ParseSections(s[|Raw(x)|..]).value;
      assert ([x] + xs)[1..] == xs;
      assert s == s[..|Raw(x)|] + s[|Raw(x)|..];
    }
  }

  /** Every list of well-formed sections is read back from its bytes. */
  lemma {:induction false} EmitParses(xs: seq<Section>)
    requires AllWellFormed(xs)
    ensures ParseSections(Emit(xs)) == Some(xs)
  {
    hide Raw, ParseSection, WellFormed;
    if |xs| > 0 {
      RawParses(xs[0], Emit(xs[1..]));
      EmitParses(xs[1..]);
      assert (Raw(xs[0]) + Emit(xs[1..]))[|Raw(xs[0])|..] == Emit(xs[1..]);
      assert xs == [xs[0]] + xs[1..];
    }
  }

  lemma ModuleTiles(bytes: Bytes)
    requires ParseModule(bytes).Some?
    ensures bytes == HEADER + Emit(ParseModule(bytes).value) && AllWellFormed(ParseModule(bytes).value)
  {
    SectionsTile(bytes[8..]);
    assert bytes == bytes[..8] + bytes[8..];
  }

  lemma ModuleParses(xs: seq<Section>)
    requires AllWellFormed(xs)
    ensures ParseModule(HEADER + Emit(xs)) == Some(xs)
  {
    EmitParses(xs);
    assert (HEADER + Emit(xs))[8..] == Emit(xs) && (HEADER + Emit(xs))[..8] == HEADER;
  }

  // ----- the loop ------------------------------------------------------------------------------------

  /** Walk the sections from offset to offset. */
  method ParseLoop(bytes: Bytes) returns (r: Option<seq<Section>>)
    ensures r == ParseModule(bytes)
  {
    var header := HeaderLoop(bytes);
    if !header {
      return None;
    }
    var sections: seq<Section> := [];
    var offset := 8;
    assert forall ys: seq<Section> :: [] + ys == ys;
    while offset < |bytes|
      invariant 8 <= offset <= |bytes|
      invariant ParseSections(bytes[8..]) == Prepended(sections, ParseSections(bytes[offset..]))
      decreases |bytes| - offset
    {
      hide ParseSection, Raw;
      var x := SectionAt(bytes, offset);
      assert bytes[offset..][0] == bytes[offset];
      if x == None {
        return None;
      }
      assert bytes[offset..][|Raw(x.value)|..] == bytes[offset + |Raw(x.value)|..];
      PrependStep(sections, x.value, ParseSections(bytes[offset + |Raw(x.value)|..]));
      sections := sections + [x.value];
      offset := offset + |Raw(x.value)|;
    }
    assert sections + [] == sections;
    return Some(sections);
  }

  method HeaderLoop(bytes: Bytes) returns (ok: bool)
    ensures ok <==> |bytes| >= 8 && bytes[..8] == HEADER
  {
    if |bytes| < 8 {
      return false;
    }
    for index := 0 to 4
      invariant forall i :: 0 <= i < index ==> bytes[i] == HEADER[i]
      invariant forall i :: 4 <= i < index + 4 ==> bytes[i] == HEADER[i]
    {
      if bytes[index] != HEADER[index] || bytes[index + 4] != HEADER[index + 4] {
        assert bytes[..8][index] != HEADER[index] || bytes[..8][index + 4] != HEADER[index + 4];
        return false;
      }
    }
    return true;
  }

  function Prepended(xs: seq<Section>, rest: Option<seq<Section>>): Option<seq<Section>> {
    match rest
    case None => None
    case Some(ys) => Some(xs + ys)
  }

  lemma PrependStep(xs: seq<Section>, x: Section, rest: Option<seq<Section>>)
    ensures Prepended(xs + [x], rest) == Prepended(xs, Prepended([x], rest))
  {
    if rest.Some? {
      assert xs + [x] + rest.value == xs + ([x] + rest.value);
    }
  }

  method SectionAt(bytes: Bytes, offset: nat) returns (r: Option<Section>)
    requires offset < |bytes|
    ensures r == ParseSection(bytes[offset..])
  {
    assert bytes[offset..][1..] == bytes[offset + 1..];
    var id := bytes[offset];
    var sizeInfo := DecodeLoop(bytes, offset + 1);
    if sizeInfo == None {
      return None;
    }
    var payloadStart := offset + 1 + sizeInfo.value.length;
    var payloadEnd := payloadStart + sizeInfo.value.value;
    if payloadEnd > |bytes| {
      return None;
    }
    assert bytes[offset..][1 + sizeInfo.value.length..] == bytes[payloadStart..];
    if id == 0 {
      var nameInfo := DecodeLoop(bytes, payloadStart);
      if nameInfo == None || payloadStart + nameInfo.value.length + nameInfo.value.value > payloadEnd {
        return None;
      }
    }
    assert bytes[offset..][1..1 + sizeInfo.value.length] == bytes[offset + 1..payloadStart];
    assert bytes[offset..][1 + sizeInfo.value.length..payloadEnd - offset] == bytes[payloadStart..payloadEnd];
    return Some(Section(id, bytes[offset + 1..payloadStart], bytes[payloadStart..payloadEnd]));
  }

  // ----- stripping and appending custom sections ------------------------------------------------------

  predicate HasPrefix(x: Section, prefix: Bytes) {
    x.id == 0 && CustomOf(x.payload).Some? && prefix <= CustomOf(x.payload).value.name
  }

  /** Every section but the custom ones whose name starts with `prefix`, in order. */
  function Kept(xs: seq<Section>, prefix: Bytes): seq<Section> {
    if |xs| == 0 then []
    else (if HasPrefix(xs[0], prefix) then [] else [xs[0]]) + Kept(xs[1..], prefix)
  }

  /** The bytes a module is identified by: itself without the prefixed custom sections. */
  function Canonical(bytes: Bytes, prefix: Bytes): Option<Bytes> {
    match ParseModule(bytes)
    case None => None
    case Some(xs) => Some(HEADER + Emit(Kept(xs, prefix)))
  }

  function CustomSection(name: Bytes, data: Bytes): Section {
    var payload := Encode(|name|) + name + data;
    Section(0, Encode(|payload|), payload)
  }

  function Append(bytes: Bytes, name: Bytes, data: Bytes): Bytes {
    bytes + Raw(CustomSection(name, data))
  }

  lemma {:induction false} KeptProperties(xs: seq<Section>, prefix: Bytes)
    ensures AllWellFormed(xs) ==> AllWellFormed(Kept(xs, prefix))
    ensures forall x :: x in Kept(xs, prefix) <==> x in xs && !HasPrefix(x, prefix)
    ensures Kept(Kept(xs, prefix), prefix) == Kept(xs, prefix)
  {
    hide WellFormed, HasPrefix;
    if |xs| > 0 {
      KeptProperties(xs[1..], prefix);
      if !HasPrefix(xs[0], prefix) {
        assert Kept(xs, prefix)[1..] == Kept(xs[1..], prefix);
      } else {
        assert Kept(xs, prefix) == Kept(xs[1..], prefix);
      }
    }
  }

  lemma {:induction false} KeptAppend(xs: seq<Section>, ys: seq<Section>, prefix: Bytes)
    ensures Kept(xs + ys, prefix) == Kept(xs, prefix) + Kept(ys, prefix)
  {
    if |xs| == 0 {
      assert xs + ys == ys;
    } else {
      assert (xs + ys)[1..] == xs[1..] + ys;
      KeptAppend(xs[1..], ys, prefix);
    }
  }

  lemma {:induction false} EmitAppend(xs: seq<Section>, ys: seq<Section>)
    ensures Emit(xs + ys) == Emit(xs) + Emit(ys)
  {
    if |xs| == 0 {
      assert xs + ys == ys;
    } else {
      assert (xs + ys)[1..] == xs[1..] + ys;
      EmitAppend(xs[1..], ys);
    }
  }

  /** Stripping drops exactly the prefixed sections, and stripping again changes nothing. */
  lemma StripIsIdempotent(bytes: Bytes, prefix: Bytes)
    requires ParseModule(bytes).Some?
    ensures var c := Canonical(bytes, prefix).value;
      && ParseModule(c) == Some(Kept(ParseModule(bytes).value, prefix))
      && Canonical(c, prefix) == Some(c)
  {
    var xs := ParseModule(bytes).value;
    ModuleTiles(bytes);
    KeptProperties(xs, prefix);
    ModuleParses(Kept(xs, prefix));
  }

  /** A name behind its minimally spelled length is read back, whatever follows it. */
  lemma NameReads(name: Bytes, rest: Bytes)
    requires |name| < SAFE_LIMIT
    ensures CustomOf(Encode(|name|) + name + rest) == Some(Custom(Encode(|name|), name, rest))
  {
    hide Encode, Decode;
    var l := Encode(|name|);
    RoundTrip(|name|, 0, name + rest);
    assert l + name + rest == l + (name + rest);
  }

  lemma CustomSectionIsWellFormed(name: Bytes, data: Bytes)
    requires |name| + |data| + 8 < SAFE_LIMIT
    ensures var x := CustomSection(name, data);
      WellFormed(x) && CustomOf(x.payload) == Some(Custom(Encode(|name|), name, data))
  {
    hide Encode, Decode, CustomOf;
    var x := CustomSection(name, data);
    SafeFits(|name|);
    NameReads(name, data);
    RoundTrip(|x.payload|, 0, []);
    assert x.size + [] == x.size;
  }

  lemma CustomSectionId(name: Bytes, data: Bytes)
    ensures CustomSection(name, data).id == 0
  {
  }

  /** Appending a custom section adds it behind the others, and leaves the canonical bytes
      unchanged when its name carries the stripped prefix. */
  lemma AppendKeepsCanonical(bytes: Bytes, name: Bytes, data: Bytes, prefix: Bytes)
    requires ParseModule(bytes).Some? && |name| + |data| + 8 < SAFE_LIMIT
    ensures ParseModule(Append(bytes, name, data)) == Some(ParseModule(bytes).value + [CustomSection(name, data)])
    ensures prefix <= name ==> Canonical(Append(bytes, name, data), prefix) == Canonical(bytes, prefix)
  {
    hide CustomSection, WellFormed, Raw, ParseModule, CustomOf;
    var xs, x := ParseModule(bytes).value, CustomSection(name, data);
    assert x.id == 0 by { CustomSectionId(name, data); }
    CustomSectionIsWellFormed(name, data);
    ModuleTiles(bytes);
    EmitAppend(xs, [x]);
    assert Emit([x]) == Raw(x) + Emit([]);
    assert HEADER + Emit(xs + [x]) == Append(bytes, name, data);
    ModuleParses(xs + [x]);
    KeptAppend(xs, [x], prefix);
    if prefix <= name {
      assert HasPrefix(x, prefix);
      assert Kept([x], prefix) == [] + Kept([], prefix) == [];
      assert Kept(xs + [x], prefix) == Kept(xs, prefix);
    }
  }
}
