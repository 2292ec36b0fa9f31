// The layout of printed text: how far every line is indented.
module JsonLayout {
  import opened JsonText
  import JsonLaw

  function LeadingSpaces(s: string): nat { if s != [] && s[0] == ' ' then 1 + LeadingSpaces(s[1..]) else 0 }

  /** For every line but the first, the number of spaces it begins with. */
  function LineIndents(s: string): seq<nat> {
    if s == [] then []
    else (if s[0] == '\n' then [LeadingSpaces(s[1..])] else []) + LineIndents(s[1..])
  }

  function Width(level: int): nat { if level < 0 then 0 else level }

  /** What the layout asks: every element and every entry on a line of its own, one indent deeper than its container,
      whose closing bracket is on a line of its own again. */
  function Layout(v: Json, indent: int, level: int): seq<nat>
    decreases v, 1
  {
    match v
    case Arr(items) => LayoutAll(items, indent, level + indent) + [Width(level)]
    case Obj(_, values) => LayoutAll(values, indent, level + indent) + [Width(level)]
    case _ => []
  }

  function LayoutAll(vs: seq<Json>, indent: int, level: int): seq<nat>
    decreases vs, 0
  {
    if vs == [] then [] else [Width(level)] + Layout(vs[0], indent, level) + LayoutAll(vs[1..], indent, level)
  }

  predicate OneLine(s: string) { forall i :: 0 <= i < |s| ==> s[i] != '\n' }

  predicate StartsLine(s: string) { s != [] && s[0] != ' ' }

  /** %.17g prints something without spaces. */
  ghost predicate Solid(p: Platform) { forall bits :: OneLine(p.general(bits)) && StartsLine(p.general(bits)) }

  // --------------------------------------------------------------- pieces

  lemma {:induction false} SameLine(s: string, x: string)
    requires OneLine(s)
    ensures LineIndents(s + x) == LineIndents(x)
  {
    if s == [] {
      assert s + x == x;
    } else {
      SameLine(s[1..], x);
      assert (s + x)[1..] == s[1..] + x;
    }
  }

  lemma {:induction false} SpacesLead(n: int, x: string)
    requires StartsLine(x)
    ensures LeadingSpaces(Spaces(n) + x) == Width(n) && OneLine(Spaces(n))
    decreases if n < 0 then 0 else n
  {
    if n <= 0 {
      assert Spaces(n) + x == x;
    } else {
      SpacesLead(n - 1, x);
      JsonLaw.SpaceFirst(n);
      assert (Spaces(n) + x)[1..] == Spaces(n - 1) + x;
      assert Spaces(n) == [' '] + Spaces(n - 1);
    }
  }

  lemma {:induction false} BreakIndents(indent: int, level: int, x: string)
    requires indent != 0 && StartsLine(x)
    ensures LineIndents(Break(indent, level) + x) == [Width(level)] + LineIndents(x)
  {
    hide Spaces;
    var s := Break(indent, level) + x;
    assert s[0] == '\n' && s[1..] == Spaces(level) + x;
    SpacesLead(level, x);
    SameLine(Spaces(level), x);
  }

  lemma {:induction false} EscapesOnOneLine(s: string)
    ensures OneLine(EscapeAll(s))
  {
    if s != [] {
      EscapesOnOneLine(s[1..]);
      EscapeOnOneLine(s[0]);
      JoinLine(EscapeChar(s[0]), EscapeAll(s[1..]));
    }
  }

  lemma EscapeOnOneLine(c: char)
    ensures OneLine(EscapeChar(c))
  {
    if c < ' ' || c == 127 as char { HexNoBreak(c as int / 16); HexNoBreak(c as int % 16); }
  }

  lemma HexNoBreak(n: nat)
    requires n < 16
    ensures HexDigit(n) != '\n'
  {
  }

  lemma JoinLine(s: string, t: string)
    requires OneLine(s) && OneLine(t)
    ensures OneLine(s + t)
  {
  }

  lemma {:induction false} DecimalOnOneLine(n: nat)
    ensures OneLine(Decimal(n)) && StartsLine(Decimal(n))
  {
    JsonLaw.DecimalReads(n);
    forall i | 0 <= i < |Decimal(n)| ensures Decimal(n)[i] != '\n' {
      assert IsDigit(Decimal(n)[i]);
    }
    assert IsDigit(Decimal(n)[0]);
  }

  lemma {:induction false} FloatOnOneLine(p: Platform, bits: nat)
    requires Solid(p)
    ensures OneLine(FloatText(p, bits)) && StartsLine(FloatText(p, bits))
  {
    hide Decimal, Magnitude, IsNan, IsInf, Negative;
    if !IsNan(bits) && !IsInf(bits) && IsIntegral(bits) {
      hide IsIntegral;
      DecimalOnOneLine(Magnitude(bits));
      JoinLine(if Negative(bits) then ['-'] else [], Decimal(Magnitude(bits)));
      JoinLine((if Negative(bits) then ['-'] else []) + Decimal(Magnitude(bits)), ".0");
    }
  }

  lemma {:induction false} LeafOnOneLine(p: Platform, v: Json, indent: int, level: int)
    requires Solid(p) && !v.Arr? && !v.Obj?
    ensures OneLine(Text(p, v, indent, level)) && StartsLine(Text(p, v, indent, level))
  {
    hide EscapeAll, Decimal, FloatText, Solid;
    match v {
      case Int(n) =>
        DecimalOnOneLine(if n < 0 then -n else n);
        JoinLine(['-'], Decimal(if n < 0 then -n else n));
      case Float(bits) => FloatOnOneLine(p, bits);
      case Str(s) => QuotedOnOneLine(s);
      case _ =>
    }
  }

  lemma QuotedOnOneLine(s: string)
    ensures OneLine(Quoted(s)) && StartsLine(Quoted(s))
  {
    hide EscapeAll;
    EscapesOnOneLine(s);
  }

  lemma {:induction false} ValueStarts(p: Platform, v: Json, indent: int, level: int)
    requires Solid(p)
    ensures StartsLine(Text(p, v, indent, level))
  {
    hide Solid, Items, Members, Break;
    if !v.Arr? && !v.Obj? { LeafOnOneLine(p, v, indent, level); }
  }

  // -------------------------------------------------------------- main result

  lemma Regrouped(a: string, b: string, c: string, d: string, e: string)
    ensures a + b + c + d + e == a + (b + (c + (d + e)))
  {
  }

  lemma ItemsSplit(p: Platform, items: seq<Json>, first: bool, indent: int, level: int, tail: string)
    requires items != []
    ensures Items(p, items, first, indent, level) + tail ==
            (if first then [] else [',']) +
            (Break(indent, level) +
             (Text(p, items[0], indent, level) + (Items(p, items[1..], false, indent, level) + tail)))
  {
    hide Break, Text;
    Regrouped(if first then [] else [','], Break(indent, level), Text(p, items[0], indent, level),
              Items(p, items[1..], false, indent, level), tail);
  }

  lemma MembersSplit(p: Platform, keys: seq<string>, values: seq<Json>, first: bool, indent: int, level: int,
          tail: string)
    requires keys != [] && values != []
    ensures Members(p, keys, values, first, indent, level) + tail ==
            (if first then [] else [',']) +
            (Break(indent, level) +
             ((Quoted(keys[0]) + Colon(indent)) +
              (Text(p, values[0], indent, level) + (Members(p, keys[1..], values[1..], false, indent, level) + tail))))
  {
    hide Break, Text, Quoted, Colon;
    var a, b, q, c := if first then [] else [','], Break(indent, level), Quoted(keys[0]), Colon(indent);
    var t, m := Text(p, values[0], indent, level), Members(p, keys[1..], values[1..], false, indent, level);
    assert Members(p, keys, values, first, indent, level) == a + b + q + c + t + m;
    SixRegrouped(a, b, q, c, t, m, tail);
    hide Members;
  }

  lemma SixRegrouped(a: string, b: string, q: string, c: string, t: string, m: string, tail: string)
    ensures a + b + q + c + t + m + tail == a + (b + ((q + c) + (t + (m + tail))))
  {
    Regrouped(a, b, q + c, t, m + tail);
    assert a + b + q + c == a + b + (q + c);
  }

  /** The newline after a comma or an opening bracket. */
  lemma {:induction false} NextLine(comma: string, indent: int, level: int, x: string)
    requires OneLine(comma) && indent != 0 && StartsLine(x)
    ensures LineIndents(comma + (Break(indent, level) + x)) == [Width(level)] + LineIndents(x)
  {
    hide LineIndents, Break;
    SameLine(comma, Break(indent, level) + x);
    BreakIndents(indent, level, x);
  }

  lemma StartsWithIt(x: string, y: string)
    requires StartsLine(x)
    ensures StartsLine(x + y)
  {
  }

  lemma {:induction false} Closed(open: char, inner: string, indent: int, level: int, close: char, tail: string)
    requires indent != 0 && open != '\n' && close != '\n' && close != ' '
    ensures LineIndents([open] + inner + Break(indent, level) + [close] + tail) ==
            LineIndents(inner + (Break(indent, level) + ([close] + tail)))
    ensures LineIndents(Break(indent, level) + ([close] + tail)) == [Width(level)] + LineIndents(tail)
  {
    hide LineIndents, Break;
    SameLine([open], inner + (Break(indent, level) + ([close] + tail)));
    Regrouped([open], inner, Break(indent, level), [close], tail);
    BreakIndents(indent, level, [close] + tail);
    SameLine([close], tail);
  }

  lemma LayoutStep(vs: seq<Json>, indent: int, level: int, rest: seq<nat>)
    requires vs != []
    ensures LayoutAll(vs, indent, level) + rest ==
            [Width(level)] + (Layout(vs[0], indent, level) + (LayoutAll(vs[1..], indent, level) + rest))
  {
    hide Layout, Width;
  }

  lemma NothingLeft(p: Platform, first: bool, indent: int, level: int, tail: string)
    ensures Items(p, [], first, indent, level) + tail == tail == Members(p, [], [], first, indent, level) + tail
    ensures LayoutAll([], indent, level) + LineIndents(tail) == LineIndents(tail)
  {
  }

  /** With an indent, the lines of a printed value are indented as the layout says. */
  lemma {:induction false} LinesAreLaidOut(p: Platform, v: Json, indent: int, level: int, tail: string)
    requires Solid(p) && Writable(v) && indent != 0
    ensures LineIndents(Text(p, v, indent, level) + tail) == Layout(v, indent, level) + LineIndents(tail)
    decreases v, 1
  {
    hide Solid, Break, Items, Members, LineIndents, OneLine, StartsLine, LayoutAll;
    if v.Arr? {
      var inner := Items(p, v.items, true, indent, level + indent);
      Closed('[', inner, indent, level, ']', tail);
      ItemsLaidOut(p, v.items, true, indent, level + indent, Break(indent, level) + ([']'] + tail));
    } else if v.Obj? {
      var inner := Members(p, v.keys, v.values, true, indent, level + indent);
      Closed('{', inner, indent, level, '}', tail);
      MembersLaidOut(p, v.keys, v.values, true, indent, level + indent, Break(indent, level) + (['}'] + tail));
    } else {
      LeafOnOneLine(p, v, indent, level);
      SameLine(Text(p, v, indent, level), tail);
    }
  }

  lemma {:induction false} ItemsLaidOut(p: Platform, items: seq<Json>, first: bool, indent: int, level: int,
          tail: string)
    requires Solid(p) && indent != 0 && forall i :: 0 <= i < |items| ==> Writable(items[i])
    ensures LineIndents(Items(p, items, first, indent, level) + tail) ==
            LayoutAll(items, indent, level) + LineIndents(tail)
    decreases items, 0
  {
    hide Solid, Break, Text, Layout, LayoutAll, Items, LineIndents, OneLine, StartsLine;
    if items == [] {
      NothingLeft(p, first, indent, level, tail);
    } else {
      var comma, t := if first then [] else [','], Text(p, items[0], indent, level);
      var more := Items(p, items[1..], false, indent, level) + tail;
      CommaOnLine(first);
      ItemsSplit(p, items, first, indent, level, tail);
      ItemsLaidOut(p, items[1..], false, indent, level, tail);
      LinesAreLaidOut(p, items[0], indent, level, more);
      ValueStarts(p, items[0], indent, level);
      StartsWithIt(t, more);
      NextLine(comma, indent, level, t + more);
      LayoutStep(items, indent, level, LineIndents(tail));
    }
  }

  lemma CommaOnLine(first: bool)
    ensures OneLine(if first then [] else [','])
  {
  }

  lemma {:induction false} MembersLaidOut(p: Platform, keys: seq<string>, values: seq<Json>, first: bool, indent: int,
          level: int, tail: string)
    requires Solid(p) && indent != 0 && |keys| == |values| && forall i :: 0 <= i < |values| ==> Writable(values[i])
    ensures LineIndents(Members(p, keys, values, first, indent, level) + tail) ==
            LayoutAll(values, indent, level) + LineIndents(tail)
    decreases values, 0
  {
    hide Solid, Break, Text, Layout, LayoutAll, Members, Quoted, Colon, LineIndents, OneLine, StartsLine;
    if values == [] {
      NothingLeft(p, first, indent, level, tail);
    } else {
      var q, t := Quoted(keys[0]) + Colon(indent), Text(p, values[0], indent, level);
      var more := Members(p, keys[1..], values[1..], false, indent, level) + tail;
      CommaOnLine(first);
      MembersSplit(p, keys, values, first, indent, level, tail);
      MembersLaidOut(p, keys[1..], values[1..], false, indent, level, tail);
      LinesAreLaidOut(p, values[0], indent, level, more);
      KeyOnOneLine(keys[0], indent);
      StartsWithIt(q, t + more);
      NextLine(if first then [] else [','], indent, level, q + (t + more));
      SameLine(q, t + more);
      LayoutStep(values, indent, level, LineIndents(tail));
    }
  }

  lemma KeyOnOneLine(k: string, indent: int)
    ensures OneLine(Quoted(k) + Colon(indent)) && StartsLine(Quoted(k) + Colon(indent))
  {
    hide Quoted;
    QuotedOnOneLine(k);
    JoinLine(Quoted(k), Colon(indent));
  }

  // ---------------------------------------------------- without an indent

  function Join(ts: seq<string>): string {
    if ts == [] then [] else if |ts| == 1 then ts[0] else ts[0] + [','] + Join(ts[1..])
  }

  function ItemTexts(p: Platform, items: seq<Json>, level: int): seq<string> {
    seq(|items|, i requires 0 <= i < |items| => Text(p, items[i], 0, level))
  }

  function EntryTexts(p: Platform, keys: seq<string>, values: seq<Json>, level: int): seq<string>
    requires |keys| == |values|
  {
    seq(|keys|, i requires 0 <= i < |keys| => Quoted(keys[i]) + [':'] + Text(p, values[i], 0, level))
  }

  lemma JoinMore(t: string, ts: seq<string>)
    ensures Join([t] + ts) == if ts == [] then t else t + [','] + Join(ts)
  {
    assert ([t] + ts)[1..] == ts;
  }

  lemma {:induction false} ItemsJoin(p: Platform, items: seq<Json>, first: bool, level: int)
    ensures Items(p, items, first, 0, level) ==
            if items == [] then [] else (if first then [] else [',']) + Join(ItemTexts(p, items, level))
  {
    hide Text, Join;
    if items != [] {
      ItemsJoin(p, items[1..], false, level);
      assert ItemTexts(p, items, level) == [Text(p, items[0], 0, level)] + ItemTexts(p, items[1..], level);
      JoinMore(Text(p, items[0], 0, level), ItemTexts(p, items[1..], level));
    }
  }

  lemma {:induction false} MembersJoin(p: Platform, keys: seq<string>, values: seq<Json>, first: bool, level: int)
    requires |keys| == |values|
    ensures Members(p, keys, values, first, 0, level) ==
            if keys == [] then [] else (if first then [] else [',']) + Join(EntryTexts(p, keys, values, level))
  {
    hide Text, Join, Quoted;
    if keys != [] {
      MembersJoin(p, keys[1..], values[1..], false, level);
      var t := Quoted(keys[0]) + [':'] + Text(p, values[0], 0, level);
      assert EntryTexts(p, keys, values, level) == [t] + EntryTexts(p, keys[1..], values[1..], level);
      JoinMore(t, EntryTexts(p, keys[1..], values[1..], level));
    }
  }

  /** Without an indent nothing stands between the marks of a container and what it holds. */
  lemma {:induction false} Compact(p: Platform, v: Json, level: int)
    requires Writable(v)
    ensures v.Arr? ==> Text(p, v, 0, level) == ['['] + Join(ItemTexts(p, v.items, level)) + [']']
    ensures v.Obj? ==> Text(p, v, 0, level) == ['{'] + Join(EntryTexts(p, v.keys, v.values, level)) + ['}']
  {
    hide Items, Members, ItemTexts, EntryTexts, Quoted, Join;
    NoneJoined(p, level);
    if v.Arr? {
      ItemsJoin(p, v.items, true, level);
    } else if v.Obj? {
      MembersJoin(p, v.keys, v.values, true, level);
    }
  }

  lemma NoneJoined(p: Platform, level: int)
    ensures Join(ItemTexts(p, [], level)) == [] == Join(EntryTexts(p, [], [], level))
  {
  }

  // ---------------------------------------------------------------- escapes

  /** A byte is escaped exactly when it is a quote, a slash or backslash, a control character or the delete character,
      in two characters where there is a letter for it and in six otherwise, with small hexadecimal digits. */
  lemma {:induction false} EscapedExactly(c: char)
    ensures EscapeChar(c) == [c] <==> 32 <= c as int && c != '"' && c != '\\' && c != '/' && c as int != 127
    ensures |EscapeChar(c)| == 2 <==> c == '"' || c == '\\' || c == '/' || 8 <= c as int <= 10 || 12 <= c as int <= 13
    ensures EscapeChar(c) == [c] || |EscapeChar(c)| == 2 ||
            (|EscapeChar(c)| == 6 && Small(EscapeChar(c)[4]) && Small(EscapeChar(c)[5]))
  {
  }

  /** No capital letter. */
  predicate Small(c: char) { '0' <= c <= '9' || 'a' <= c <= 'f' }
}
