/** The risc0 word format: every primitive becomes little-endian 32-bit words, a vector is a length word
    followed by its items, and records and arrays are their parts in order. */
module WordCodec {
  import opened Basics

  /** The shape of a serialized value. An f64 travels as the U64 of its bits. */
  datatype Kind = U8 | U32 | U64 | I64 | Array(length: nat, elem: Kind) | Vec(elem: Kind)
    | Pair(first: Kind, second: Kind)

  datatype Value = Num(n: int) | List(items: seq<Value>) | Both(fst: Value, snd: Value)

  predicate HasKind(k: Kind, v: Value) {
    match k
    case U8 => v.Num?
    case U32 => v.Num?
    case U64 => v.Num?
    case I64 => v.Num?
    case Array(n, e) => v.List? && |v.items| == n && forall x :: x in v.items ==> HasKind(e, x)
    case Vec(e) => v.List? && forall x :: x in v.items ==> HasKind(e, x)
    case Pair(a, b) => v.Both? && HasKind(a, v.fst) && HasKind(b, v.snd)
  }

  /** What the format can carry: numbers of the declared width and vectors shorter than 2^32. */
  predicate InRange(k: Kind, v: Value)
    requires HasKind(k, v)
  {
    match k
    case U8 => 0 <= v.n < 256
    case U32 => 0 <= v.n < TWO32
    case U64 => 0 <= v.n < TWO64
    case I64 => -TWO63 <= v.n < TWO63
    case Array(_, e) => forall x :: x in v.items ==> InRange(e, x)
    case Vec(e) => |v.items| < TWO32 && forall x :: x in v.items ==> InRange(e, x)
    case Pair(a, b) => InRange(a, v.fst) && InRange(b, v.snd)
  }

  // ----- Writing -----

  function LittleEndian(w: nat, n: nat): (b: seq<Byte>)
    ensures |b| == n
    decreases n, w
  {
    if n == 0 then [] else [w % 256] + LittleEndian(w / 256, n - 1)
  }

  function Word(w: int): (b: seq<Byte>)
    requires 0 <= w < TWO32
    ensures |b| == 4
  {
    LittleEndian(w, 4)
  }

  function WriteU8(n: int): seq<Byte> { Word(n % 256) }

  function WriteU32(n: int): seq<Byte> { Word(n % TWO32) }

  /** Low word first; both words are masked. */
  function WriteU64(n: int): seq<Byte> { Word(n % TWO32) + Word(n / TWO32 % TWO32) }

  function WriteI64(n: int): seq<Byte> { WriteU64(if n < 0 then n + TWO64 else n) }

  predicate Numeric(k: Kind) {
    k.U8? || k.U32? || k.U64? || k.I64?
  }

  function WriteNumber(k: Kind, n: int): seq<Byte>
    requires Numeric(k)
  {
    match k
    case U8 => WriteU8(n)
    case U32 => WriteU32(n)
    case U64 => WriteU64(n)
    case I64 => WriteI64(n)
  }

  function Encode(k: Kind, v: Value): seq<Byte>
    requires HasKind(k, v)
    decreases k, 0, v
  {
    match k
    case Array(_, e) => EncodeItems(e, v.items)
    case Vec(e) => WriteU32(|v.items|) + EncodeItems(e, v.items)
    case Pair(a, b) => Encode(a, v.fst) + Encode(b, v.snd)
    case _ => WriteNumber(k, v.n)
  }

  function EncodeItems(e: Kind, items: seq<Value>): seq<Byte>
    requires forall x :: x in items ==> HasKind(e, x)
    decreases e, |items|
  {
    if items == [] then [] else Encode(e, items[0]) + EncodeItems(e, items[1..])
  }

  /** The encoding is always whole words. */
  lemma {:induction false} EncodeAligned(k: Kind, v: Value) returns (words: nat)
    requires HasKind(k, v)
    ensures |Encode(k, v)| == 4 * words
    decreases k, 0
  {
    match k
    case U8 => words := 1;
    case U32 => words := 1;
    case U64 => words := 2;
    case I64 => words := 2;
    case Array(_, e) => words := EncodeItemsAligned(e, v.items);
    case Vec(e) =>
      var n := EncodeItemsAligned(e, v.items);
      words := 1 + n;
    case Pair(a, b) =>
      var x := EncodeAligned(a, v.fst);
      var y := EncodeAligned(b, v.snd);
      words := x + y;
  }

  lemma {:induction false} EncodeItemsAligned(e: Kind, items: seq<Value>) returns (words: nat)
    requires forall x :: x in items ==> HasKind(e, x)
    ensures |EncodeItems(e, items)| == 4 * words
    decreases e, |items|
  {
    words := 0;
    if items != [] {
      var x := EncodeAligned(e, items[0]);
      var y := EncodeItemsAligned(e, items[1..]);
      words := x + y;
    }
  }

  // ----- What is written, byte by byte -----

  /** A word is its four bytes, lowest first. */
  lemma WordBytes(w: int)
    requires 0 <= w < TWO32
    ensures Word(w) == [w % 256, w / 256 % 256, w / 65_536 % 256, w / 16_777_216]
  {
    var a := w / 256;
    var b := a / 256;
    var c := b / 256;
    assert b == w / 65_536 && c == w / 16_777_216 && c % 256 == c;
    assert LittleEndian(c, 1) == [c % 256] + LittleEndian(c / 256, 0);
    assert LittleEndian(b, 2) == [b % 256] + LittleEndian(c, 1);
    assert LittleEndian(a, 3) == [a % 256] + LittleEndian(b, 2);
    assert LittleEndian(w, 4) == [w % 256] + LittleEndian(a, 3);
  }

  /** Numbers: a byte and a 32-bit number are one word, masked; wider ones are two, the low one first; a negative
      one is written as its two's complement. */
  lemma NumbersWritten(n: int)
    ensures WriteNumber(U8, n) == Word(n % 0x100) && WriteNumber(U32, n) == Word(n % 0x1_0000_0000)
    ensures WriteNumber(U64, n) == Word(n % 0x1_0000_0000) + Word(n / 0x1_0000_0000 % 0x1_0000_0000)
    ensures n >= 0 ==> WriteNumber(I64, n) == WriteNumber(U64, n)
    ensures n < 0 ==> WriteNumber(I64, n) == WriteNumber(U64, n + 0x1_0000_0000_0000_0000)
  {
  }

  /** Vectors: the length as one word, then the items in order; arrays: the items alone; records: their parts in
      order. */
  lemma ShapesWritten(e: Kind, items: seq<Value>, k: Kind, x: Value, y: Value)
    requires AllHaveKind(e, items) && HasKind(e, x) && HasKind(k, y)
    ensures Encode(Vec(e), List(items)) == Word(|items| % 0x1_0000_0000) + Encode(Array(|items|, e), List(items))
    ensures Encode(Array(0, e), List([])) == []
    ensures Encode(Array(|items| + 1, e), List(items + [x])) == Encode(Array(|items|, e), List(items)) + Encode(e, x)
    ensures Encode(Pair(e, k), Both(x, y)) == Encode(e, x) + Encode(k, y)
  {
    EncodeItemsSnoc(e, items, x);
  }

  // ----- Reading -----

  function FromLittleEndian(b: seq<Byte>): (w: nat) {
    if b == [] then 0 else b[0] as int + 256 * FromLittleEndian(b[1..])
  }

  ghost function Pow256(n: nat): nat {
    if n == 0 then 1 else 256 * Pow256(n - 1)
  }

  lemma {:induction false} LittleEndianBound(b: seq<Byte>)
    ensures FromLittleEndian(b) < Pow256(|b|)
  {
    if b != [] { LittleEndianBound(b[1..]); }
  }

  lemma {:induction false} LittleEndianRoundTrip(w: nat, n: nat)
    requires w < Pow256(n)
    ensures FromLittleEndian(LittleEndian(w, n)) == w
  {
    if n > 0 {
      LittleEndianRoundTrip(w / 256, n - 1);
      assert LittleEndian(w, n)[1..] == LittleEndian(w / 256, n - 1);
    }
  }

  lemma Pow256Four()
    ensures Pow256(4) == TWO32
  {
    assert Pow256(2) == 0x1_0000;
  }

  function ReadWord(b: seq<Byte>): (r: Option<(int, seq<Byte>)>)
    ensures r.Some? ==> 0 <= r.value.0 < TWO32
  {
    if |b| < 4 then None
    else
      LittleEndianBound(b[..4]); Pow256Four();
      Some((FromLittleEndian(b[..4]), b[4..]))
  }

  function ReadU64(b: seq<Byte>): (r: Option<(int, seq<Byte>)>)
    ensures r.Some? ==> 0 <= r.value.0 < TWO64
  {
    match ReadWord(b)
    case None => None
    case Some((lo, r)) =>
      match ReadWord(r)
      case None => None
      case Some((hi, r')) => Some((lo + TWO32 * hi, r'))
  }

  /** A byte is a word below 256, and a signed number is read in two's complement. */
  function ReadNumber(k: Kind, b: seq<Byte>): (r: Option<(int, seq<Byte>)>)
    requires Numeric(k)
    ensures r.Some? ==> InRange(k, Num(r.value.0))
  {
    match k
    case U8 =>
      (match ReadWord(b)
       case Some((w, r)) => if w < 256 then Some((w, r)) else None
       case None => None)
    case U32 => ReadWord(b)
    case U64 => ReadU64(b)
    case I64 =>
      match ReadU64(b)
      case Some((n, r)) => Some((if n < TWO63 then n else n - TWO64, r))
      case None => None
  }

  /** Reads one value and returns what follows it; everything it accepts is in range. */
  function Decode(k: Kind, b: seq<Byte>): (r: Option<(Value, seq<Byte>)>)
    ensures r.Some? ==> HasKind(k, r.value.0) && InRange(k, r.value.0)
    decreases k, 0, |b|
  {
    match k
    case Array(n, e) =>
      (match DecodeItems(e, n, b)
       case Some((items, r)) => Some((List(items), r))
       case None => None)
    case Vec(e) =>
      (match ReadWord(b)
       case None => None
       case Some((n, r)) =>
         match DecodeItems(e, n, r)
         case Some((items, r')) => Some((List(items), r'))
         case None => None)
    case Pair(a, c) =>
      (match Decode(a, b)
       case None => None
       case Some((x, r)) =>
         match Decode(c, r)
         case None => None
         case Some((y, r')) => Some((Both(x, y), r')))
    case _ =>
      match ReadNumber(k, b)
      case None => None
      case Some((n, r)) => Some((Num(n), r))
  }

  function DecodeItems(e: Kind, n: nat, b: seq<Byte>): (r: Option<(seq<Value>, seq<Byte>)>)
    ensures r.Some? ==> |r.value.0| == n && forall x :: x in r.value.0 ==> HasKind(e, x) && InRange(e, x)
    decreases e, n, |b|
  {
    if n == 0 then Some(([], b))
    else
      match Decode(e, b)
      case None => None
      case Some((x, r)) =>
        match DecodeItems(e, n - 1, r)
        case None => None
        case Some((xs, r')) => Some(([x] + xs, r'))
  }

  // ----- Round trip -----

  lemma WordRoundTrip(w: int, s: seq<Byte>)
    requires 0 <= w < TWO32
    ensures ReadWord(Word(w) + s) == Some((w, s))
  {
    assert (Word(w) + s)[4..] == s && (Word(w) + s)[..4] == Word(w);
    Pow256Four();
    LittleEndianRoundTrip(w, 4);
  }

  lemma U64RoundTrip(n: int, s: seq<Byte>)
    requires 0 <= n < TWO64
    ensures ReadU64(WriteU64(n) + s) == Some((n, s))
  {
    var lo, hi := n % TWO32, n / TWO32;
    WordRoundTrip(lo, Word(hi) + s);
    WordRoundTrip(hi, s);
    assert WriteU64(n) + s == Word(lo) + (Word(hi) + s);
  }

  lemma NumberRoundTrip(k: Kind, n: int, s: seq<Byte>)
    requires Numeric(k) && InRange(k, Num(n))
    ensures ReadNumber(k, WriteNumber(k, n) + s) == Some((n, s))
  {
    if k.U8? || k.U32? {
      InModulus(n, if k.U8? then 256 else TWO32);
      WordRoundTrip(n, s);
    } else {
      U64RoundTrip(if n < 0 then n + TWO64 else n, s);
    }
  }

  /** Decoding an encoded in-range value, whatever follows it, gives the value and what follows. */
  lemma {:induction false} DecodeEncode(k: Kind, v: Value, s: seq<Byte>)
    requires HasKind(k, v) && InRange(k, v)
    ensures Decode(k, Encode(k, v) + s) == Some((v, s))
    decreases k, 0
  {
    match k
    case Array(_, e) => DecodeEncodeItems(e, v.items, s);
    case Vec(e) =>
      WordRoundTrip(|v.items|, EncodeItems(e, v.items) + s);
      InModulus(|v.items|, TWO32);
      Regroup(Word(|v.items|), EncodeItems(e, v.items), s);
      DecodeEncodeItems(e, v.items, s);
    case Pair(a, b) =>
      Regroup(Encode(a, v.fst), Encode(b, v.snd), s);
      DecodeEncode(a, v.fst, Encode(b, v.snd) + s);
      DecodeEncode(b, v.snd, s);
    case _ => NumberRoundTrip(k, v.n, s);
  }

  lemma {:induction false} DecodeEncodeItems(e: Kind, items: seq<Value>, s: seq<Byte>)
    requires forall x :: x in items ==> HasKind(e, x) && InRange(e, x)
    ensures DecodeItems(e, |items|, EncodeItems(e, items) + s) == Some((items, s))
    decreases e, |items|
  {
    if items == [] {
      assert EncodeItems(e, items) + s == s;
    } else {
      var rest := EncodeItems(e, items[1..]);
      assert EncodeItems(e, items) + s == Encode(e, items[0]) + (rest + s);
      DecodeEncode(e, items[0], rest + s);
      DecodeEncodeItems(e, items[1..], s);
      assert [items[0]] + items[1..] == items;
    }
  }

  // ----- Every accepted byte string is an encoding -----

  lemma LowByte(c: Byte, w: nat)
    ensures (c + 256 * w) % 256 == c && (c + 256 * w) / 256 == w
  {
  }

  lemma {:induction false} BytesBack(b: seq<Byte>)
    ensures LittleEndian(FromLittleEndian(b), |b|) == b
  {
    if b != [] {
      BytesBack(b[1..]);
      LowByte(b[0], FromLittleEndian(b[1..]));
    }
  }

  lemma WordRead(b: seq<Byte>)
    requires ReadWord(b).Some?
    ensures Word(ReadWord(b).value.0) + ReadWord(b).value.1 == b
  {
    BytesBack(b[..4]);
  }

  lemma TwoWords(lo: int, hi: int)
    requires 0 <= lo < TWO32 && 0 <= hi < TWO32
    ensures 0 <= lo + TWO32 * hi < TWO64
    ensures WriteU64(lo + TWO32 * hi) == Word(lo) + Word(hi)
  {
    var n := lo + TWO32 * hi;
    assert n % TWO32 == lo && n / TWO32 == hi && hi % TWO32 == hi;
  }

  lemma U64Read(b: seq<Byte>)
    requires ReadU64(b).Some?
    ensures var (n, r) := ReadU64(b).value; 0 <= n < TWO64 && WriteU64(n) + r == b
  {
    var (lo, r) := ReadWord(b).value;
    var (hi, r') := ReadWord(r).value;
    WordRead(b);
    WordRead(r);
    TwoWords(lo, hi);
    Regroup(Word(lo), Word(hi), r');
  }

  lemma NumberRead(k: Kind, b: seq<Byte>)
    requires Numeric(k) && ReadNumber(k, b).Some?
    ensures WriteNumber(k, ReadNumber(k, b).value.0) + ReadNumber(k, b).value.1 == b
  {
    if k.U8? || k.U32? {
      WordRead(b);
      InModulus(ReadWord(b).value.0, if k.U8? then 256 else TWO32);
    } else {
      U64Read(b);
    }
  }

  lemma VecRead(e: Kind, n: nat, items: seq<Value>, b: seq<Byte>, r: seq<Byte>, r': seq<Byte>)
    requires ReadWord(b) == Some((n, r)) && |items| == n && AllHaveKind(e, items) && EncodeItems(e, items) + r' == r
    ensures Encode(Vec(e), List(items)) + r' == b
  {
    WordRead(b);
    InModulus(n, TWO32);
    Regroup(Word(n), EncodeItems(e, items), r');
  }

  lemma PairRead(k: Kind, x: Value, y: Value, r: seq<Byte>, r': seq<Byte>)
    requires k.Pair? && HasKind(k.first, x) && HasKind(k.second, y) && Encode(k.second, y) + r' == r
    ensures Encode(k, Both(x, y)) + r' == Encode(k.first, x) + r
  {
    Regroup(Encode(k.first, x), Encode(k.second, y), r');
  }

  /** Whatever is read is the encoding of the value read, followed by what is left. */
  lemma {:induction false} EncodeDecode(k: Kind, b: seq<Byte>)
    requires Decode(k, b).Some?
    ensures Encode(k, Decode(k, b).value.0) + Decode(k, b).value.1 == b
    decreases k, 0, |b|
  {
    match k
    case Array(n, e) => EncodeDecodeItems(e, n, b);
    case Vec(e) =>
      var (n, r) := ReadWord(b).value;
      EncodeDecodeItems(e, n, r);
      var (items, r') := DecodeItems(e, n, r).value;
      VecRead(e, n, items, b, r, r');
    case Pair(a, c) =>
      var (x, r) := Decode(a, b).value;
      var (y, r') := Decode(c, r).value;
      EncodeDecode(a, b);
      EncodeDecode(c, r);
      PairRead(k, x, y, r, r');
    case _ => NumberRead(k, b);
  }

  lemma {:induction false} EncodeDecodeItems(e: Kind, n: nat, b: seq<Byte>)
    requires DecodeItems(e, n, b).Some?
    ensures EncodeItems(e, DecodeItems(e, n, b).value.0) + DecodeItems(e, n, b).value.1 == b
    decreases e, n, |b|
  {
    if n > 0 {
      var (x, r) := Decode(e, b).value;
      var (xs, r') := DecodeItems(e, n - 1, r).value;
      EncodeDecode(e, b);
      EncodeDecodeItems(e, n - 1, r);
      assert ([x] + xs)[1..] == xs;
      Regroup(Encode(e, x), EncodeItems(e, xs), r');
    }
  }

  /** The decoder accepts exactly the encodings of in-range values, followed by anything. */
  lemma DecodesExactly(k: Kind, b: seq<Byte>, v: Value, s: seq<Byte>)
    ensures Decode(k, b) == Some((v, s)) <==> HasKind(k, v) && InRange(k, v) && b == Encode(k, v) + s
  {
    if Decode(k, b) == Some((v, s)) {
      EncodeDecode(k, b);
    } else if HasKind(k, v) && InRange(k, v) {
      DecodeEncode(k, v, s);
    }
  }

  /** The round trip holds exactly for the values in range: wider numbers and longer vectors are lost. */
  lemma RoundTrip(k: Kind, v: Value, s: seq<Byte>)
    requires HasKind(k, v)
    ensures Decode(k, Encode(k, v) + s) == Some((v, s)) <==> InRange(k, v)
  {
    if InRange(k, v) { DecodeEncode(k, v, s); }
  }

  /** No encoding is a prefix of another value's encoding, so a stream of them splits in one way. */
  lemma UniquelyDecodable(k: Kind, v: Value, w: Value, s: seq<Byte>, s': seq<Byte>)
    requires HasKind(k, v) && HasKind(k, w) && InRange(k, v) && InRange(k, w)
    requires Encode(k, v) + s == Encode(k, w) + s'
    ensures v == w && s == s'
  {
    DecodeEncode(k, v, s);
    DecodeEncode(k, w, s');
  }

  ghost predicate AllHaveKind(e: Kind, items: seq<Value>) {
    forall x :: x in items ==> HasKind(e, x)
  }

  lemma {:induction false} EncodeItemsSnoc(e: Kind, xs: seq<Value>, y: Value)
    requires AllHaveKind(e, xs) && HasKind(e, y)
    ensures AllHaveKind(e, xs + [y]) && EncodeItems(e, xs + [y]) == EncodeItems(e, xs) + Encode(e, y)
    decreases |xs|
  {
    var all := xs + [y];
    if xs == [] {
      assert all == [y] && all[1..] == [];
      assert EncodeItems(e, all) == Encode(e, y) + EncodeItems(e, []);
    } else {
      EncodeItemsSnoc(e, xs[1..], y);
      assert all[1..] == xs[1..] + [y] && all[0] == xs[0];
      var a, b, c := Encode(e, xs[0]), EncodeItems(e, xs[1..]), Encode(e, y);
      Regroup(a, b, c);
    }
  }

  // ----- Building values of a known shape -----

  /** A value together with its shape. */
  datatype Typed = Typed(kind: Kind, value: Value) {
    ghost predicate Valid() {
      HasKind(kind, value)
    }

    ghost predicate Fits()
      requires Valid()
    {
      InRange(kind, value)
    }

    function Bytes(): seq<Byte>
      requires Valid()
    {
      Encode(kind, value)
    }
  }

  function Number(k: Kind, n: int): (r: Typed)
    requires k.U8? || k.U32? || k.U64? || k.I64?
    ensures r == Typed(k, Num(n)) && r.Valid()
  {
    Typed(k, Num(n))
  }

  function Byte8(n: int): Typed { Number(U8, n) }
  function Word32(n: int): Typed { Number(U32, n) }
  function Float64(n: int): Typed { Number(U64, n) }
  function Int64(n: int): Typed { Number(I64, n) }

  const ID: Kind := Array(32, U8)

  function IdTyped(id: Id32): (r: Typed)
    ensures r.kind == ID && r.Valid() && r.Fits()
  {
    ArrayOf<int>(U8, Byte8, id)
  }

  function Then(a: Typed, b: Typed): (r: Typed)
    requires a.Valid() && b.Valid()
    ensures r == Typed(Pair(a.kind, b.kind), Both(a.value, b.value))
    ensures r.Valid() && (r.Fits() <==> a.Fits() && b.Fits())
    ensures r.Bytes() == a.Bytes() + b.Bytes()
  {
    Typed(Pair(a.kind, b.kind), Both(a.value, b.value))
  }

  /** The values of a list, item by item. */
  function Items<T>(e: Kind, f: T -> Typed, xs: seq<T>): (vs: seq<Value>)
    requires forall i :: 0 <= i < |xs| ==> f(xs[i]).Valid() && f(xs[i]).kind == e
    ensures |vs| == |xs| && forall i :: 0 <= i < |xs| ==> vs[i] == f(xs[i]).value
    ensures forall v :: v in vs ==> HasKind(e, v)
  {
    var vs := seq(|xs|, i requires 0 <= i < |xs| => f(xs[i]).value);
    assert forall i :: 0 <= i < |xs| ==> f(xs[i]).Valid() && vs[i] == f(xs[i]).value;
    assert forall i :: 0 <= i < |vs| ==> vs[i] == f(xs[i]).value && HasKind(e, vs[i]);
    vs
  }

  function VecOf<T>(e: Kind, f: T -> Typed, xs: seq<T>): (r: Typed)
    requires forall i :: 0 <= i < |xs| ==> f(xs[i]).Valid() && f(xs[i]).kind == e
    ensures r == Typed(Vec(e), List(Items(e, f, xs)))
    ensures r.Valid() && (r.Fits() <==> |xs| < TWO32 && forall i :: 0 <= i < |xs| ==> f(xs[i]).Fits())
  {
    Typed(Vec(e), List(Items(e, f, xs)))
  }

  function ArrayOf<T>(e: Kind, f: T -> Typed, xs: seq<T>): (r: Typed)
    requires forall i :: 0 <= i < |xs| ==> f(xs[i]).Valid() && f(xs[i]).kind == e
    ensures r == Typed(Array(|xs|, e), List(Items(e, f, xs)))
    ensures r.Valid() && (r.Fits() <==> forall i :: 0 <= i < |xs| ==> f(xs[i]).Fits())
  {
    Typed(Array(|xs|, e), List(Items(e, f, xs)))
  }

  // ----- Taking values apart -----

  lemma PairParts(k: Kind, v: Value)
    requires k.Pair? && HasKind(k, v) && InRange(k, v)
    ensures v.Both? && HasKind(k.first, v.fst) && InRange(k.first, v.fst) && HasKind(k.second, v.snd) &&
              InRange(k.second, v.snd)
  {
  }

  function IntOf(v: Value): int {
    if v.Num? then v.n else 0
  }

  function SeqOf<T>(g: Value -> T, v: Value): (xs: seq<T>)
    ensures v.List? ==> |xs| == |v.items| && forall i :: 0 <= i < |xs| ==> xs[i] == g(v.items[i])
  {
    if v.List? then seq(|v.items|, i requires 0 <= i < |v.items| => g(v.items[i])) else []
  }

  function ByteOf(v: Value): Byte { if v.Num? && 0 <= v.n < 256 then v.n else 0 }
  function BytesOf(v: Value): seq<Byte> { SeqOf(ByteOf, v) }
  function IntsOf(v: Value): seq<int> { SeqOf(IntOf, v) }

  function IdOf(v: Value): Id32 {
    if v.List? && |v.items| == 32 then BytesOf(v) else ZERO_ID
  }

  lemma IdBack(id: Id32)
    ensures IdOf(IdTyped(id).value) == id
  {
  }

  lemma IdRead(v: Value)
    requires HasKind(ID, v) && InRange(ID, v)
    ensures IdTyped(IdOf(v)).value == v
  {
    forall i | 0 <= i < |v.items| ensures Byte8(ByteOf(v.items[i])).value == v.items[i] {
      assert HasKind(U8, v.items[i]) && InRange(U8, v.items[i]);
    }
    assert IdTyped(IdOf(v)).value.items == v.items;
  }
}
