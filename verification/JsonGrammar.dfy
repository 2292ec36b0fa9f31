// The texts the parser accepts and what they mean, as a grammar: text and value of a derivation are defined by its
// structure, without the parser. Parsing finds a value exactly when a derivation has the text and the value.
module JsonGrammar {
  import opened AssocList
  import opened JsonText
  import JsonLaw

  const BLANKS: string := " \t\n\r"
  const DIGITS: string := "0123456789"
  const LOWER: string := "0123456789abcdef"
  const UPPER: string := "0123456789ABCDEF"

  /** The letter after the backslash of a short escape, and the byte it stands for. */
  const MARKS: string := "\"\\/bfnrt"
  const MEANT: string := ['"', '\\', '/', 8 as char, 12 as char, '\n', '\r', '\t']

  predicate Blank(s: string) { forall i :: 0 <= i < |s| ==> s[i] in BLANKS }

  // ------------------------------------------------------------------ strings

  /** A hexadecimal digit, in either case. */
  datatype Hex = Hex(value: nat, upper: bool)

  /** What stands between the quotes: a byte for itself, a short escape, a code unit, or a surrogate pair. */
  datatype Piece = Raw(c: char) | Short(which: nat) | Unit(digits: seq<Hex>) | Pair(high: seq<Hex>, low: seq<Hex>)

  function HexChar(h: Hex): char
    requires h.value < 16
  {
    if h.upper then UPPER[h.value] else LOWER[h.value]
  }

  predicate FourHex(ds: seq<Hex>) { |ds| == 4 && forall i :: 0 <= i < 4 ==> ds[i].value < 16 }

  function FourText(ds: seq<Hex>): (r: string)
    requires FourHex(ds)
    ensures |r| == 4
  {
    [HexChar(ds[0]), HexChar(ds[1]), HexChar(ds[2]), HexChar(ds[3])]
  }

  function CodeUnit(ds: seq<Hex>): nat
    requires FourHex(ds)
  {
    ds[0].value * 4096 + ds[1].value * 256 + ds[2].value * 16 + ds[3].value
  }

  /** A byte may stand for itself unless it is a quote, a backslash or a control character; where char is signed, no
      byte from 0x80 on may. A surrogate has to come with its other half. */
  predicate PieceFits(p: Platform, x: Piece) {
    match x
    case Raw(c) => c != '"' && c != '\\' && 32 <= c as int && (p.signedChar ==> c as int < 128)
    case Short(k) => k < 8
    case Unit(ds) => FourHex(ds) && !(0xD800 <= CodeUnit(ds) <= 0xDFFF)
    case Pair(h, l) =>
      FourHex(h) && FourHex(l) && 0xD800 <= CodeUnit(h) <= 0xDBFF && 0xDC00 <= CodeUnit(l) <= 0xDFFF
  }

  function PieceText(p: Platform, x: Piece): (r: string)
    requires PieceFits(p, x)
    ensures r != []
  {
    match x
    case Raw(c) => [c]
    case Short(k) => ['\\', MARKS[k]]
    case Unit(ds) => "\\u" + FourText(ds)
    case Pair(h, l) => "\\u" + FourText(h) + "\\u" + FourText(l)
  }

  function PieceValue(p: Platform, x: Piece): string
    requires PieceFits(p, x)
  {
    match x
    case Raw(c) => [c]
    case Short(k) => [MEANT[k]]
    case Unit(ds) => Utf8(CodeUnit(ds))
    case Pair(h, l) => Utf8(0x10000 + (CodeUnit(h) - 0xD800) * 0x400 + (CodeUnit(l) - 0xDC00))
  }

  predicate PiecesFit(p: Platform, xs: seq<Piece>) { forall i :: 0 <= i < |xs| ==> PieceFits(p, xs[i]) }

  function PiecesText(p: Platform, xs: seq<Piece>): string
    requires PiecesFit(p, xs)
  {
    if xs == [] then [] else PieceText(p, xs[0]) + PiecesText(p, xs[1..])
  }

  function PiecesValue(p: Platform, xs: seq<Piece>): string
    requires PiecesFit(p, xs)
  {
    if xs == [] then [] else PieceValue(p, xs[0]) + PiecesValue(p, xs[1..])
  }

  // ------------------------------------------------------------------ numbers

  function TenTo(n: nat): nat { if n == 0 then 1 else 10 * TenTo(n - 1) }

  predicate DigitsFit(ds: seq<nat>) { forall i :: 0 <= i < |ds| ==> ds[i] < 10 }

  function DigitText(ds: seq<nat>): string
    requires DigitsFit(ds)
  {
    seq(|ds|, i requires 0 <= i < |ds| => DIGITS[ds[i]])
  }

  /** Every digit counts by its place. */
  function Positional(ds: seq<nat>): nat {
    if ds == [] then 0 else ds[0] * TenTo(|ds| - 1) + Positional(ds[1..])
  }

  function Signed(sign: string, n: nat): int { if sign == "-" then 0 - n else n }

  /** An integer of 64 bits: an optional sign and digits, leading zeros among them. */
  predicate WholeFits(sign: string, ds: seq<nat>) {
    (sign == "" || sign == "+" || sign == "-") && ds != [] && DigitsFit(ds) &&
    INT64_MIN <= Signed(sign, Positional(ds)) <= INT64_MAX
  }

  function WholeText(sign: string, ds: seq<nat>): string
    requires DigitsFit(ds)
  {
    sign + DigitText(ds)
  }

  ghost predicate IsWhole(t: string) { exists sign, ds :: WholeFits(sign, ds) && WholeText(sign, ds) == t }

  /** Any other number: characters a number may have, that strtod takes. */
  ghost predicate RealFits(p: Platform, t: string) {
    && t != [] && (forall i :: 0 <= i < |t| ==> t[i] in "0123456789eE+-.")
    && !IsWhole(t) && p.strtod(t).Some?
  }

  // ------------------------------------------------------------------- values

  datatype Tree =
    | Word(name: string)
    | Whole(sign: string, digits: seq<nat>)
    | Real(lexeme: string)
    | Quote(pieces: seq<Piece>)
    | NoItems(space: string)
    | List(row: Row)
    | NoFields(space: string)
    | Record(fields: Fields)

  /** A value with the spaces around it. */
  datatype Padded = Padded(before: string, tree: Tree, after: string)

  /** Values with a comma between them. */
  datatype Row = LastItem(item: Padded) | ItemThen(item: Padded, more: Row)

  datatype Field = Field(before: string, key: seq<Piece>, gap: string, value: Padded)

  datatype Fields = LastField(field: Field) | FieldThen(field: Field, others: Fields)

  predicate IsWord(name: string) {
    name == "null" || name == "true" || name == "false" || name == "NaN" || name == "Infinity" || name == "-Infinity"
  }

  function WordValue(name: string): Json
    requires IsWord(name)
  {
    if name == "null" then Null
    else if name == "true" then Bool(true)
    else if name == "false" then Bool(false)
    else if name == "NaN" then Float(0x7ff8_0000_0000_0000)
    else if name == "Infinity" then Float(0x7ff0_0000_0000_0000)
    else Float(0xfff0_0000_0000_0000)
  }

  ghost predicate TreeFits(p: Platform, t: Tree)
    decreases t
  {
    match t
    case Word(name) => IsWord(name)
    case Whole(sign, ds) => WholeFits(sign, ds)
    case Real(lexeme) => RealFits(p, lexeme)
    case Quote(xs) => PiecesFit(p, xs)
    case NoItems(space) => Blank(space)
    case List(row) => RowFits(p, row)
    case NoFields(space) => Blank(space)
    case Record(fields) => FieldsFit(p, fields)
  }

  ghost predicate PaddedFits(p: Platform, d: Padded)
    decreases d
  {
    Blank(d.before) && TreeFits(p, d.tree) && Blank(d.after)
  }

  ghost predicate RowFits(p: Platform, row: Row)
    decreases row
  {
    PaddedFits(p, row.item) && (row.ItemThen? ==> RowFits(p, row.more))
  }

  ghost predicate FieldFits(p: Platform, f: Field)
    decreases f
  {
    Blank(f.before) && PiecesFit(p, f.key) && Blank(f.gap) && PaddedFits(p, f.value)
  }

  ghost predicate FieldsFit(p: Platform, fs: Fields)
    decreases fs
  {
    FieldFits(p, fs.field) && (fs.FieldThen? ==> FieldsFit(p, fs.others))
  }

  ghost function TreeText(p: Platform, t: Tree): string
    requires TreeFits(p, t)
    decreases t
  {
    match t
    case Word(name) => name
    case Whole(sign, ds) => WholeText(sign, ds)
    case Real(lexeme) => lexeme
    case Quote(xs) => ['"'] + PiecesText(p, xs) + ['"']
    case NoItems(space) => ['['] + space + [']']
    case List(row) => ['['] + RowText(p, row) + [']']
    case NoFields(space) => ['{'] + space + ['}']
    case Record(fields) => ['{'] + FieldsText(p, fields) + ['}']
  }

  ghost function PaddedText(p: Platform, d: Padded): string
    requires PaddedFits(p, d)
    decreases d
  {
    d.before + TreeText(p, d.tree) + d.after
  }

  ghost function RowText(p: Platform, row: Row): string
    requires RowFits(p, row)
    decreases row
  {
    PaddedText(p, row.item) + if row.ItemThen? then [','] + RowText(p, row.more) else []
  }

  ghost function FieldText(p: Platform, f: Field): string
    requires FieldFits(p, f)
    decreases f
  {
    f.before + (['"'] + PiecesText(p, f.key) + ['"']) + f.gap + [':'] + PaddedText(p, f.value)
  }

  ghost function FieldsText(p: Platform, fs: Fields): string
    requires FieldsFit(p, fs)
    decreases fs
  {
    FieldText(p, fs.field) + if fs.FieldThen? then [','] + FieldsText(p, fs.others) else []
  }

  ghost function TreeValue(p: Platform, t: Tree): Json
    requires TreeFits(p, t)
    decreases t
  {
    match t
    case Word(name) => WordValue(name)
    case Whole(sign, ds) => Int(Signed(sign, Positional(ds)))
    case Real(lexeme) => Float(p.strtod(lexeme).value)
    case Quote(xs) => Str(PiecesValue(p, xs))
    case NoItems(_) => Arr([])
    case List(row) => Arr(RowValues(p, row))
    case NoFields(_) => Obj([], [])
    case Record(fields) => Collected(FieldValues(p, fields))
  }

  ghost function PaddedValue(p: Platform, d: Padded): Json
    requires PaddedFits(p, d)
    decreases d
  {
    TreeValue(p, d.tree)
  }

  ghost function RowValues(p: Platform, row: Row): seq<Json>
    requires RowFits(p, row)
    decreases row
  {
    [PaddedValue(p, row.item)] + if row.ItemThen? then RowValues(p, row.more) else []
  }

  ghost function FieldValue(p: Platform, f: Field): (string, Json)
    requires FieldFits(p, f)
    decreases f
  {
    (PiecesValue(p, f.key), PaddedValue(p, f.value))
  }

  ghost function FieldValues(p: Platform, fs: Fields): seq<(string, Json)>
    requires FieldsFit(p, fs)
    decreases fs
  {
    [FieldValue(p, fs.field)] + if fs.FieldThen? then FieldValues(p, fs.others) else []
  }

  // ----------------------------------------------------------- repeated keys

  predicate Has(es: seq<(string, Json)>, k: string) { exists i :: 0 <= i < |es| && es[i].0 == k }

  /** The last value given for a key. */
  function LastValue(es: seq<(string, Json)>, k: string): Json
    requires Has(es, k)
  {
    if Has(es[1..], k) then LastValue(es[1..], k) else es[0].1
  }

  /** Each key where it occurs last. */
  function ByLast(es: seq<(string, Json)>): seq<(string, Json)> {
    if es == [] then [] else (if Has(es[1..], es[0].0) then [] else [es[0]]) + ByLast(es[1..])
  }

  function Without(es: seq<(string, Json)>, k: string): (r: seq<(string, Json)>)
    ensures |r| <= |es|
  {
    if es == [] then [] else (if es[0].0 == k then [] else [es[0]]) + Without(es[1..], k)
  }

  /** Each key where it occurs first, with its last value. */
  function ByFirst(es: seq<(string, Json)>): seq<(string, Json)>
    decreases |es|
  {
    if es == [] then [] else [(es[0].0, LastValue(es, es[0].0))] + ByFirst(Without(es[1..], es[0].0))
  }

  /** The object of a list of entries. A key that is repeated has the last value given for it; it stands where it came
      first when the text has fewer than four entries, and where it came last otherwise. */
  function Collected(es: seq<(string, Json)>): Json {
    var r := if |es| < 4 then ByFirst(es) else ByLast(es);
    Obj(seq(|r|, i requires 0 <= i < |r| => r[i].0), seq(|r|, i requires 0 <= i < |r| => r[i].1))
  }

  /** The whole text and its value. */
  ghost predicate Derives(p: Platform, d: Padded, text: string, v: Json) {
    PaddedFits(p, d) && PaddedText(p, d) == text && PaddedValue(p, d) == v
  }
}
