/** `String` of someip/tlv/datatypes/complex/array_types.py: an array of
    Uint8 items that is regenerated from a text and three flags whenever one
    of them changes.  The items are an optional byte-order mark (section 6
    of RFC 3629), the UTF-8 encoding (section 3 of RFC 3629) of the text with
    an optional terminating NUL, and optional zero padding. */
module StringTypes {
  import opened Consts
  import opened Errors
  import opened TypeHelpers
  import opened BasicTypes
  import opened Utf8
  import opened Nodes
  import opened DataTypes
  import Framing
  import Packing

  /** The UTF-8 byte-order mark. */
  const Bom: seq<byte> := [0xEF, 0xBB, 0xBF]

  function Zeros(n: nat): (r: seq<byte>)
    ensures |r| == n && forall i :: 0 <= i < n ==> r[i] == 0
  {
    seq(n, _ => 0)
  }

  /** The text that is encoded: the string, with a NUL when terminated. */
  function Terminated(text: seq<CodePoint>, terminate: bool): seq<CodePoint> {
    if terminate then text + [0] else text
  }

  /** The bytes `__recreate_string_items` makes into items.  `target` is what
      `self.length` returns at that moment; it is read only when padding. */
  function StringBytes(text: seq<CodePoint>, terminate: bool, bom: bool, padding: bool,
                       target: Result<int>): Result<seq<byte>>
  {
    var encoded :- Encode(Terminated(text, terminate));
    var marked := if bom then Bom + encoded else encoded;
    if !padding then Ok(marked)
    else
      var length :- target;
      Ok(Pad(marked, length))
  }

  /** Zero bytes added up to `length`; longer input is left as it is. */
  function Pad(b: seq<byte>, length: int): seq<byte> {
    if |b| < length then b + Zeros(length - |b|) else b
  }

  /** One untagged Uint8 per byte, as `Uint8(c, None)` builds them. */
  function ByteItems(b: seq<byte>): (r: seq<Node>)
    ensures |r| == |b|
    ensures forall i :: 0 <= i < |b| ==> r[i] == Basic(UINT8, Header(None, None, None), b[i])
  {
    seq(|b|, i requires 0 <= i < |b| => Basic(UINT8, Header(None, None, None), b[i]))
  }

  function ByteElements(b: seq<byte>): (r: seq<Item>)
    ensures |r| == |b|
    ensures forall i :: 0 <= i < |b| ==> r[i] == Element(ByteItems(b)[i])
  {
    seq(|b|, i requires 0 <= i < |b| => Element(ByteItems(b)[i]))
  }

  /** Regenerated items pass the array's item check. */
  lemma ByteElementsAccepted(b: seq<byte>)
    ensures ItemsCheck(ARRAY, ByteElements(b)) == Pass
    ensures NodesOf(ByteElements(b)) == ByteItems(b)
  {
    var xs := ByteElements(b);
    var cs := ClassesOf(xs);
    assert forall i :: 0 <= i < |cs| ==> cs[i] == BasicClass(UINT8);
    assert Arrayish(Some(cs), None);
  }

  /** The bytes of an encodable text are the mark, the text's encoding,
      which decodes back to the (terminated) text, and zeros up to the
      padding target; a surrogate in the text makes the regeneration
      fail. */
  lemma StringBytesLayout(text: seq<CodePoint>, terminate: bool, bom: bool, padding: bool, target: Result<int>)
    ensures Encode(text).Err? ==> StringBytes(text, terminate, bom, padding, target) == Err(EncodeError)
    ensures Encode(text).Ok? && padding && target.Err? ==>
              StringBytes(text, terminate, bom, padding, target) == Err(target.error)
    ensures Encode(text).Ok? && (padding ==> target.Ok?) ==>
              var r := StringBytes(text, terminate, bom, padding, target);
              var pre := if bom then 3 else 0;
              var body := Encode(Terminated(text, terminate)).value;
              && r.Ok?
              && r.value[..pre] == (if bom then Bom else [])
              && r.value[pre..pre + |body|] == body
              && Decode(body) == Some(Terminated(text, terminate))
              && (forall i :: pre + |body| <= i < |r.value| ==> r.value[i] == 0)
              && |r.value| == (if padding && pre + |body| < target.value then target.value else pre + |body|)
  {
    var t := Terminated(text, terminate);
    TerminatedEncodes(text, terminate);
    if Encode(t).Ok? {
      var body := Encode(t).value;
      EncodeRoundTrip(t);
      if padding ==> target.Ok? {
        var length := if padding then target.value else 0;
        var marked := if bom then Bom + body else body;
        assert StringBytes(text, terminate, bom, padding, target) == Ok(if padding then Pad(marked, length) else marked);
        PaddedLayout(body, bom, padding, length);
      }
    }
  }

  /** A text can be terminated exactly when it can be encoded. */
  lemma TerminatedEncodes(text: seq<CodePoint>, terminate: bool)
    ensures Encode(Terminated(text, terminate)).Ok? <==> Encode(text).Ok?
  {
    var t := Terminated(text, terminate);
    if terminate {
      if Encode(text).Ok? {
        assert forall i :: 0 <= i < |t| ==> !IsSurrogate(t[i]) by {
          forall i | 0 <= i < |t| ensures !IsSurrogate(t[i]) {
            if i < |text| { assert t[i] == text[i]; }
          }
        }
      } else {
        var i :| 0 <= i < |text| && IsSurrogate(text[i]);
        assert t[i] == text[i];
      }
    }
  }

  /** The shape of marked, padded bytes. */
  lemma PaddedLayout(body: seq<byte>, bom: bool, padding: bool, length: int)
    ensures var pre := if bom then 3 else 0;
            var marked := if bom then Bom + body else body;
            var r := if padding then Pad(marked, length) else marked;
            && r[..pre] == (if bom then Bom else [])
            && r[pre..pre + |body|] == body
            && (forall i :: pre + |body| <= i < |r| ==> r[i] == 0)
            && |r| == (if padding && pre + |body| < length then length else pre + |body|)
  {
  }

  /** Appending text to an unterminated, unpadded string appends the new
      text's encoding to its bytes. */
  lemma {:induction false} StringBytesAppend(text: seq<CodePoint>, more: seq<CodePoint>, bom: bool, target: Result<int>)
    requires Encode(text).Ok? && Encode(more).Ok?
    ensures StringBytes(text + more, false, bom, false, target).Ok?
    ensures StringBytes(text + more, false, bom, false, target).value ==
              StringBytes(text, false, bom, false, target).value + Encode(more).value
  {
    var e := Encode(text).value;
    var f := Encode(more).value;
    UnpaddedBytes(text, bom, target);
    EncodeAppend(text, more);
    UnpaddedBytes(text + more, bom, target);
    MarkedAppend(e, f, bom);
  }

  /** Bytes behind an optional mark grow by what is appended after them. */
  lemma MarkedAppend(e: seq<byte>, f: seq<byte>, bom: bool)
    ensures (if bom then Bom + (e + f) else e + f) == (if bom then Bom + e else e) + f
  {
    if bom {
      AppendAssociates(Bom, e, f);
    }
  }

  /** Without a terminator or padding, the bytes are the mark and the
      encoding. */
  lemma {:induction false} UnpaddedBytes(text: seq<CodePoint>, bom: bool, target: Result<int>)
    requires Encode(text).Ok?
    ensures StringBytes(text, false, bom, false, target) ==
              Ok(if bom then Bom + Encode(text).value else Encode(text).value)
  {
    assert Terminated(text, false) == text;
  }

  /** Without a length override, a string's `length` is its number of
      items, so padding regenerates up to the previous byte count. */
  lemma {:induction false} StringLengthIsByteCount(h: Header, lfl: int, b: seq<byte>)
    requires h.length.None?
    ensures Length(Array(h, lfl, UINT8, ByteItems(b), true)) == Ok(|b|)
  {
    if b != [] {
      assert Length(ByteItems(b)[0]) == Ok(1);
    }
  }

  /** The `.value` of an item: a scalar's value; other objects have none. */
  function ValueOf(x: Item): (r: Result<int>)
    ensures r.Ok? <==> x.Element? && x.node.Basic?
  {
    if x.Element? && x.node.Basic? then Ok(x.node.value) else Err(NoValueAttribute)
  }

  /** `chr`: the character of a code point. */
  function Chr(v: int): (r: Result<CodePoint>)
    ensures r.Ok? <==> 0 <= v <= 0x10FFFF
    ensures r.Ok? ==> r.value == v
    ensures r.Err? ==> r.error == ChrOutOfRange
  {
    if 0 <= v <= 0x10FFFF then Ok(v) else Err(ChrOutOfRange)
  }

  /** `"".join([chr(u.value) for u in items])`, failing at the first item
      that has no value or no character. */
  function CharsOf(items: seq<Item>): (r: Result<seq<CodePoint>>)
    ensures r.Ok? ==> |r.value| == |items|
    ensures r.Ok? ==> forall i :: 0 <= i < |items| ==> ValueOf(items[i]) == Ok(r.value[i])
  {
    if items == [] then Ok([])
    else
      var v :- ValueOf(items[0]);
      var c :- Chr(v);
      var rest :- CharsOf(items[1..]);
      Ok([c] + rest)
  }

  predicate IsUint8(x: Item) {
    ClassOfItem(x) == BasicClass(UINT8)
  }

  /** What `String` methods accept as text: a str, a list (or tuple) of
      objects, another object with a `len()` (bytes, a dict, a set) known by
      its size, or a single object without one (every data type, and plain
      objects that define no `__len__`). */
  datatype TextArg =
    | Text(chars: seq<CodePoint>)
    | Items(elems: seq<Item>)
    | Sized(size: nat)
    | Single(item: Item)

  /** `__convert_to_string`: a non-empty list starting with a Uint8 becomes
      the characters of its items' values, a Uint8 the character of its
      value, a str itself; anything else raises. */
  function ConvertToString(arg: TextArg): (r: Result<seq<CodePoint>>)
    ensures arg.Text? ==> r == Ok(arg.chars)
    ensures arg.Single? ==> (r.Ok? <==> IsUint8(arg.item) && 0 <= arg.item.node.value <= 0x10FFFF)
    ensures arg.Single? && r.Ok? ==> r.value == [arg.item.node.value]
    ensures arg.Items? && (arg.elems == [] || !IsUint8(arg.elems[0])) ==> r == Err(NotConvertible)
    ensures arg.Items? && arg.elems != [] && IsUint8(arg.elems[0]) ==> r == CharsOf(arg.elems)
    ensures arg.Sized? ==> r == Err(NotConvertible)
  {
    match arg
    case Items(elems) => if |elems| > 0 && IsUint8(elems[0]) then CharsOf(elems) else Err(NotConvertible)
    case Single(x) =>
      if IsUint8(x) then
        var c :- Chr(x.node.value);
        Ok([c])
      else Err(NotConvertible)
    case Text(chars) => Ok(chars)
    case Sized(_) => Err(NotConvertible)
  }

  /** `len()` of a text argument: the number of characters, of list
      elements, or the object's own size; an object without `__len__`
      raises. */
  function ArgLength(arg: TextArg): (r: Result<nat>)
    ensures r.Err? <==> arg.Single?
    ensures r.Err? ==> r.error == NotSized
    ensures arg.Sized? ==> r == Ok(arg.size)
  {
    match arg
    case Text(chars) => Ok(|chars|)
    case Items(elems) => Ok(|elems|)
    case Sized(n) => Ok(n)
    case Single(_) => Err(NotSized)
  }

  /** A Uint8 of value 0x80 or more given as text is one character that
      encodes to two bytes. */
  lemma Uint8AboveAsciiIsTwoBytes(h: Header, v: int)
    requires 0x80 <= v <= 0xFF
    ensures ConvertToString(Single(Element(Basic(UINT8, h, v)))) == Ok([v])
    ensures Encode([v]).Ok? && |Encode([v]).value| == 2
  {
    assert Encode([v]) == Ok(EncodeCodePoint(v) + []);
  }

  /** One `String` object: its array part and the fields that drive its
      regeneration. */
  class StringType {
    const arrayPart: DataType
    var text: seq<CodePoint>
    var terminate: bool
    var bom: bool
    var padding: bool

    ghost predicate Valid()
      reads this, arrayPart
    {
      arrayPart.Valid() && arrayPart.kind == ARRAY && arrayPart.isString
    }

    /** After a regeneration from `before` (the array part as it was) with
        the current text and flags, the items hold the bytes, or are left as
        they were when regeneration raised. */
    ghost predicate Regenerated(o: Outcome, before: Node, oldItems: seq<Node>)
      reads this, arrayPart
    {
      var r := StringBytes(text, terminate, bom, padding, Nodes.Length(before));
      && (o.Pass? <==> r.Ok?)
      && (r.Err? ==> o.error == r.error)
      && arrayPart.items == if r.Ok? then ByteItems(r.value) else oldItems
    }

    constructor Init(arrayPart: DataType, terminate: bool, bom: bool, padding: bool)
      ensures this.arrayPart == arrayPart && text == []
      ensures this.terminate == terminate && this.bom == bom && this.padding == padding
    {
      this.arrayPart := arrayPart;
      this.text := [];
      this.terminate := terminate;
      this.bom := bom;
      this.padding := padding;
    }

    /** `String(string, dataID, wiretype, ...)`: the array part is built
        with no items and element type UINT8, then the flags are set, then
        the text, which regenerates the items. */
    static method New(text: seq<CodePoint>, dataId: Option<int>, wiretype: Option<int>, name: Option<string>,
                      length: Option<int>, lengthfieldLen: Option<int>, terminate: bool, bom: bool,
                      padding: bool) returns (r: Result<StringType>)
      ensures var base := NewCompositeNode(ARRAY, [], dataId, wiretype, length, lengthfieldLen, Some(UINT8), true);
              && (base.Err? ==> r.Err? && r.error == base.error)
              && (base.Ok? ==>
                    var bytes := StringBytes(text, terminate, bom, padding, Nodes.Length(base.value));
                    && (r.Ok? <==> bytes.Ok?)
                    && (bytes.Err? ==> r.Err? && r.error == bytes.error)
                    && (r.Ok? ==> && fresh(r.value) && fresh(r.value.arrayPart) && r.value.Valid()
                                  && r.value.text == text && r.value.terminate == terminate
                                  && r.value.bom == bom && r.value.padding == padding
                                  && r.value.arrayPart.Snapshot() ==
                                       Array(base.value.header, base.value.lengthfieldLen, UINT8,
                                             ByteItems(bytes.value), true)))
    {
      var made := DataType.NewComposite(ARRAY, [], dataId, wiretype, name, length, lengthfieldLen, Some(UINT8), true);
      if made.Err? {
        return Err(made.error);
      }
      ghost var before := made.value.Snapshot();
      r := WithText(made.value, text, terminate, bom, padding);
      if r.Ok? {
        assert made.value.Snapshot() == Array(before.header, before.lengthfieldLen, UINT8, made.value.items, true);
      }
    }

    /** The constructor's steps once the array part exists: the flags are
        set, then the text, which fills the array part with its bytes. */
    static method WithText(d: DataType, text: seq<CodePoint>, terminate: bool, bom: bool, padding: bool)
      returns (r: Result<StringType>)
      requires d.Valid() && d.kind == ARRAY && d.isString
      modifies d`items
      ensures var bytes := StringBytes(text, terminate, bom, padding, Nodes.Length(old(d.Snapshot())));
              && (r.Ok? <==> bytes.Ok?)
              && (bytes.Err? ==> r.Err? && r.error == bytes.error)
              && (r.Ok? ==> && fresh(r.value) && r.value.arrayPart == d && r.value.Valid()
                            && r.value.text == text && r.value.terminate == terminate
                            && r.value.bom == bom && r.value.padding == padding
                            && d.items == ByteItems(bytes.value))
    {
      var s := new StringType.Init(d, terminate, bom, padding);
      var o := s.SetText(text);
      if o.Fail? {
        return Err(o.error);
      }
      return Ok(s);
    }

    /** `__recreate_string_items`. */
    method Recreate() returns (o: Outcome)
      requires Valid()
      modifies arrayPart`items
      ensures Valid()
      ensures Regenerated(o, old(arrayPart.Snapshot()), old(arrayPart.items))
    {
      ghost var expected := StringBytes(text, terminate, bom, padding, Nodes.Length(arrayPart.Snapshot()));
      var encoded := Encode(Terminated(text, terminate));
      if encoded.Err? {
        return Fail(encoded.error);
      }
      var bytes := encoded.value;
      if bom {
        bytes := Bom + bytes;
      }
      if padding {
        var length := arrayPart.Length();
        if length.Err? {
          return Fail(length.error);
        }
        if |bytes| < length.value {
          bytes := bytes + Zeros(length.value - |bytes|);
        }
      }
      assert expected == Ok(bytes);
      ByteElementsAccepted(bytes);
      o := arrayPart.SetItems(ByteElements(bytes));
    }

    /** The `string` setter. */
    method SetText(t: seq<CodePoint>) returns (o: Outcome)
      requires Valid()
      modifies this`text, arrayPart`items
      ensures Valid() && text == t
      ensures Regenerated(o, old(arrayPart.Snapshot()), old(arrayPart.items))
    {
      text := t;
      o := Recreate();
    }

    /** The `terminate` setter. */
    method SetTerminate(flag: bool) returns (o: Outcome)
      requires Valid()
      modifies this`terminate, arrayPart`items
      ensures Valid() && terminate == flag
      ensures Regenerated(o, old(arrayPart.Snapshot()), old(arrayPart.items))
    {
      terminate := flag;
      o := Recreate();
    }

    /** The `bom` setter. */
    method SetBom(flag: bool) returns (o: Outcome)
      requires Valid()
      modifies this`bom, arrayPart`items
      ensures Valid() && bom == flag
      ensures Regenerated(o, old(arrayPart.Snapshot()), old(arrayPart.items))
    {
      bom := flag;
      o := Recreate();
    }

    /** The `padding` setter. */
    method SetPadding(flag: bool) returns (o: Outcome)
      requires Valid()
      modifies this`padding, arrayPart`items
      ensures Valid() && padding == flag
      ensures Regenerated(o, old(arrayPart.Snapshot()), old(arrayPart.items))
    {
      padding := flag;
      o := Recreate();
    }

    /** The outcome of `extend` with `arg`, from the state before the call:
        a single object raises NotSized, an empty argument changes nothing,
        a failed conversion raises its error, and otherwise the converted
        text is added and the items are regenerated. */
    twostate predicate ExtendedBy(arg: TextArg, o: Outcome)
      requires old(Valid())
      reads this, arrayPart
    {
      && (ArgLength(arg).Err? ==>
            o == Fail(NotSized) && text == old(text) && arrayPart.items == old(arrayPart.items))
      && (ArgLength(arg) == Ok(0) ==>
            o == Pass && text == old(text) && arrayPart.items == old(arrayPart.items))
      && (ArgLength(arg).Ok? && ArgLength(arg).value > 0 && ConvertToString(arg).Err? ==>
            o == Fail(ConvertToString(arg).error) && text == old(text) && arrayPart.items == old(arrayPart.items))
      && (ArgLength(arg).Ok? && ArgLength(arg).value > 0 && ConvertToString(arg).Ok? ==>
            && text == old(text) + ConvertToString(arg).value
            && Regenerated(o, old(arrayPart.Snapshot()), old(arrayPart.items)))
    }

    /** `extend`: a non-empty argument is converted and added to the text,
        which regenerates the items; an empty one changes nothing; a single
        object has no length and raises. */
    method Extend(arg: TextArg) returns (o: Outcome)
      requires Valid()
      modifies this`text, arrayPart`items
      ensures Valid() && ExtendedBy(arg, o)
    {
      var n := ArgLength(arg);
      if n.Err? {
        return Fail(NotSized);
      }
      if n.value == 0 {
        return Pass;
      }
      var converted := ConvertToString(arg);
      if converted.Err? {
        return Fail(converted.error);
      }
      text := text + converted.value;
      o := Recreate();
    }

    /** `append`: a Uint8 is extended as a one-element list, anything else
        is handed to `extend` as it is. */
    method Append(arg: TextArg) returns (o: Outcome)
      requires Valid()
      modifies this`text, arrayPart`items
      ensures Valid()
      ensures arg.Single? && IsUint8(arg.item) ==>
                var v := arg.item.node.value;
                if 0 <= v <= 0x10FFFF then
                  && text == old(text) + [v]
                  && Regenerated(o, old(arrayPart.Snapshot()), old(arrayPart.items))
                else
                  o == Fail(ChrOutOfRange) && text == old(text) && arrayPart.items == old(arrayPart.items)
      ensures arg.Single? && !IsUint8(arg.item) ==>
                o == Fail(NotSized) && text == old(text) && arrayPart.items == old(arrayPart.items)
      ensures !arg.Single? ==> ExtendedBy(arg, o)
    {
      if arg.Single? && IsUint8(arg.item) {
        var single := [arg.item];
        assert single[1..] == [];
        var v := arg.item.node.value;
        if 0 <= v <= 0x10FFFF {
          assert [v as CodePoint] + [] == [v];
          assert CharsOf(single) == Ok([v]);
        }
        o := Extend(Items(single));
      } else {
        o := Extend(arg);
      }
    }

    /** `insert`: the converted argument is spliced into the text where the
        slices `[:index]` and `[index:]` cut it, which regenerates the
        items. */
    method Insert(index: int, arg: TextArg) returns (o: Outcome)
      requires Valid()
      modifies this`text, arrayPart`items
      ensures Valid()
      ensures ConvertToString(arg).Err? ==>
                o == Fail(ConvertToString(arg).error) && text == old(text) && arrayPart.items == old(arrayPart.items)
      ensures ConvertToString(arg).Ok? ==>
                var p := InsertionPoint(index, |old(text)|);
                && text == old(text)[..p] + ConvertToString(arg).value + old(text)[p..]
                && Regenerated(o, old(arrayPart.Snapshot()), old(arrayPart.items))
    {
      var converted := ConvertToString(arg);
      if converted.Err? {
        return Fail(converted.error);
      }
      var p := InsertionPoint(index, |text|);
      text := text[..p] + converted.value + text[p..];
      o := Recreate();
    }

    /** `clear`, inherited from the composite base: the items go, the text
        stays. */
    method Clear()
      requires Valid()
      modifies arrayPart`items
      ensures Valid() && arrayPart.items == [] && text == old(text)
    {
      arrayPart.Clear();
    }
  }

  /** A String of n ASCII characters with the default flags (terminated,
      with mark, unpadded), a data ID and wiretype 6 serializes to a 2-byte
      tag, a 2-byte length field and n + 1 + 3 bytes of value. */
  lemma AsciiStringSerializationSize(text: seq<CodePoint>, id: int)
    requires forall i :: 0 <= i < |text| ==> text[i] < 0x80
    requires 0 <= id <= 0xFFF && |text| + 4 <= 0xFFFF
    ensures var base := NewCompositeNode(ARRAY, [], Some(id), Some(6), None, None, Some(UINT8), true);
            && base.Ok? && base.value.lengthfieldLen == 2
            && var bytes := StringBytes(text, true, true, false, Nodes.Length(base.value));
            && bytes.Ok?
            && var n := Array(Header(Some(id), Some(6), None), 2, UINT8, ByteItems(bytes.value), true);
            && Serialization(n).Ok?
            && |Serialization(n).value| == 2 + 2 + |text| + 1 + 3
  {
    EmptyStringNode(id);
    var base := NewCompositeNode(ARRAY, [], Some(id), Some(6), None, None, Some(UINT8), true);
    AsciiByteCount(text, Nodes.Length(base.value));
    var bytes := StringBytes(text, true, true, false, Nodes.Length(base.value)).value;
    FramedStringSize(id, bytes);
  }

  /** The empty string object built with a data ID and wiretype 6 gets a
      two-byte length field. */
  lemma EmptyStringNode(id: int)
    requires 0 <= id <= 0xFFF
    ensures var base := NewCompositeNode(ARRAY, [], Some(id), Some(6), None, None, Some(UINT8), true);
            base.Ok? && base.value.lengthfieldLen == 2
  {
    assert ItemsCheck(ARRAY, []) == Pass;
  }

  /** An ASCII text, terminated and marked, is one byte per character plus
      the three-byte mark and the terminator. */
  lemma AsciiByteCount(text: seq<CodePoint>, target: Result<int>)
    requires forall i :: 0 <= i < |text| ==> text[i] < 0x80
    ensures var bytes := StringBytes(text, true, true, false, target);
            bytes.Ok? && |bytes.value| == |text| + 4
  {
    var t := Terminated(text, true);
    assert forall i :: 0 <= i < |t| ==> t[i] < 0x80;
    AsciiEncodesToItself(t);
  }

  /** A tagged string object with a two-byte length field serializes to the
      tag, the length field and its bytes. */
  lemma FramedStringSize(id: int, bytes: seq<byte>)
    requires 0 <= id <= 0xFFF && |bytes| <= 0xFFFF
    ensures var n := Array(Header(Some(id), Some(6), None), 2, UINT8, ByteItems(bytes), true);
            && Serialization(n).Ok?
            && |Serialization(n).value| == 2 + 2 + |bytes|
  {
    var items := ByteItems(bytes);
    var n := Array(Header(Some(id), Some(6), None), 2, UINT8, items, true);
    StringLengthIsByteCount(n.header, 2, bytes);
    Framing.ValuesHaveWidth(items, [], UINT8);
    Framing.CompositeFraming(n);
    Packing.Pow256Values();
    assert GenerateTag(Some(6), Some(id)).Ok?;
  }
}
