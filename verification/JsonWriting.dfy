// The writer: a growing result and a running indent level.
module JsonWriting {
  import opened JsonText

  /** EscapeString, byte by byte into a stream. */
  method EscapeString(value: string) returns (oss: string)
    ensures oss == Quoted(value)
  {
    hide EscapeChar;
    oss := ['"'];
    for i := 0 to |value|
      invariant oss + EscapeAll(value[i..]) == ['"'] + EscapeAll(value)
    {
      ghost var before := oss;
      var e := EscapeByte(value[i]);
      oss := oss + e;
      EscapedStep(before, value, i);
    }
    oss := oss + ['"'];
  }

  lemma EscapedStep(before: string, value: string, i: nat)
    requires i < |value|
    ensures before + EscapeAll(value[i..]) == before + EscapeChar(value[i]) + EscapeAll(value[i + 1..])
  {
    hide EscapeChar;
    assert value[i..][1..] == value[i + 1..];
  }

  /** The switch on one byte. */
  method EscapeByte(c: char) returns (s: string)
    ensures s == EscapeChar(c)
  {
    match c {
      case '"' => s := "\\\"";
      case '\\' => s := "\\\\";
      case '/' => s := "\\/";
      case '\n' => s := "\\n";
      case '\r' => s := "\\r";
      case '\t' => s := "\\t";
      case _ =>
        if c == 8 as char {
          s := "\\b";
        } else if c == 12 as char {
          s := "\\f";
        } else if c < ' ' || c == 127 as char {
          s := "\\u00" + [HexDigit(c as int / 16), HexDigit(c as int % 16)];
        } else {
          s := [c];
        }
    }
  }

  class JSONWriter {
    const platform: Platform
    const indent: int
    var totalIndent: int
    var result: string

    constructor (platform: Platform, indent: int)
      ensures this.platform == platform && this.indent == indent && totalIndent == 0 && result == []
    {
      this.platform, this.indent, totalIndent, result := platform, indent, 0, [];
    }

    static method Stringify(platform: Platform, value: Json, indent: int) returns (s: string)
      requires Writable(value)
      ensures s == JsonText.Stringify(platform, value, indent)
    {
      var writer := new JSONWriter(platform, indent);
      writer.WriteValue(value);
      s := writer.result;
    }

    method WriteValue(value: Json)
      requires Writable(value)
      modifies this
      ensures result == old(result) + Text(platform, value, indent, old(totalIndent)) && totalIndent == old(totalIndent)
      decreases value, 1
    {
      match value {
        case Null => WriteLiteral("null");
        case Bool(b) => if b { WriteLiteral("true"); } else { WriteLiteral("false"); }
        case Int(n) => WriteLiteral(IntText(n));
        case Float(bits) => WriteFloat(bits);
        case Str(t) => WriteString(t);
        case Arr(_) => WriteArray(value);
        case Obj(_, _) => WriteObject(value);
      }
    }

    method WriteLiteral(literal: string)
      modifies this
      ensures result == old(result) + literal && totalIndent == old(totalIndent)
    {
      for i := 0 to |literal|
        invariant result == old(result) + literal[..i] && totalIndent == old(totalIndent)
      {
        result := result + [literal[i]];
      }
      assert literal[..|literal|] == literal;
    }

    method WriteFloat(bits: nat)
      modifies this
      ensures result == old(result) + FloatText(platform, bits) && totalIndent == old(totalIndent)
    {
      if IsNan(bits) {
        WriteLiteral("NaN");
      } else if IsInf(bits) {
        if Negative(bits) { WriteLiteral("-Infinity"); } else { WriteLiteral("Infinity"); }
      } else if IsIntegral(bits) {
        WriteLiteral(FixedText(bits));
      } else {
        WriteLiteral(platform.general(bits));
      }
    }

    method WriteString(value: string)
      modifies this
      ensures result == old(result) + Quoted(value) && totalIndent == old(totalIndent)
    {
      var escaped := EscapeString(value);
      result := result + escaped;
    }

    /** A newline and one space per level. */
    method WriteIndent()
      modifies this
      ensures result == old(result) + (['\n'] + Spaces(totalIndent)) && totalIndent == old(totalIndent)
    {
      result := result + ['\n'];
      var i := 0;
      while i < totalIndent
        invariant 0 <= i && (i <= totalIndent || (i == 0 && totalIndent < 0)) && totalIndent == old(totalIndent)
        invariant result == old(result) + (['\n'] + Spaces(i))
      {
        result := result + [' '];
        i := i + 1;
      }
      assert Spaces(i) == Spaces(totalIndent);
    }

    /** Between elements and before a closing bracket: a line break when an indent is set. */
    method WriteBreak()
      modifies this
      ensures result == old(result) + Break(indent, totalIndent) && totalIndent == old(totalIndent)
    {
      if indent != 0 { WriteIndent(); }
    }

    method WriteColon()
      modifies this
      ensures result == old(result) + Colon(indent) && totalIndent == old(totalIndent)
    {
      result := result + [':'];
      if indent != 0 { result := result + [' ']; }
    }

    method WriteArray(value: Json)
      requires value.Arr? && Writable(value)
      modifies this
      ensures result == old(result) + Text(platform, value, indent, old(totalIndent)) && totalIndent == old(totalIndent)
      decreases value, 0
    {
      hide Break, Text, Items;
      var items := value.items;
      ghost var level := totalIndent;
      result := result + ['['];
      ghost var start := result;
      if indent != 0 { totalIndent := totalIndent + indent; }
      for i := 0 to |items|
        invariant totalIndent == level + indent
        invariant result + Items(platform, items[i..], i == 0, indent, totalIndent)
               == start + Items(platform, items, true, indent, totalIndent)
      {
        ghost var before := result;
        if i != 0 { result := result + [',']; }
        WriteBreak();
        WriteValue(items[i]);
        ItemWritten(platform, items, i, indent, totalIndent, before, result);
      }
      NoItems(platform, items[|items|..], |items| == 0, indent, totalIndent);
      if indent != 0 { totalIndent := totalIndent - indent; }
      WriteBreak();
      result := result + [']'];
      ArrayWritten(platform, old(result), items, indent, level, result);
    }

    method WriteObject(value: Json)
      requires value.Obj? && Writable(value)
      modifies this
      ensures result == old(result) + Text(platform, value, indent, old(totalIndent)) && totalIndent == old(totalIndent)
      decreases value, 0
    {
      hide Break, Text, Members, Quoted, Colon;
      var keys, values := value.keys, value.values;
      ghost var level := totalIndent;
      result := result + ['{'];
      ghost var start := result;
      if indent != 0 { totalIndent := totalIndent + indent; }
      for i := 0 to |keys|
        invariant totalIndent == level + indent
        invariant result + Members(platform, keys[i..], values[i..], i == 0, indent, totalIndent)
               == start + Members(platform, keys, values, true, indent, totalIndent)
      {
        ghost var before := result;
        if i != 0 { result := result + [',']; }
        WriteBreak();
        WriteString(keys[i]);
        WriteColon();
        WriteValue(values[i]);
        MemberWritten(platform, keys, values, i, indent, totalIndent, before, result);
      }
      NoMembers(platform, keys[|keys|..], values[|keys|..], |keys| == 0, indent, totalIndent);
      if indent != 0 { totalIndent := totalIndent - indent; }
      WriteBreak();
      result := result + ['}'];
      ObjectWritten(platform, old(result), keys, values, indent, level, result);
    }
  }

  lemma NoItems(p: Platform, items: seq<Json>, first: bool, indent: int, level: int)
    requires items == []
    ensures Items(p, items, first, indent, level) == []
  {
  }

  lemma NoMembers(p: Platform, keys: seq<string>, values: seq<Json>, first: bool, indent: int, level: int)
    requires keys == []
    ensures Members(p, keys, values, first, indent, level) == []
  {
  }

  lemma {:induction false} ItemWritten(p: Platform, items: seq<Json>, i: nat, indent: int, level: int, before: string,
          after: string)
    requires i < |items|
    requires after == before + (if i == 0 then [] else [',']) + Break(indent, level) + Text(p, items[i], indent, level)
    ensures before + Items(p, items[i..], i == 0, indent, level)
         == after + Items(p, items[i + 1..], false, indent, level)
  {
    hide Break, Text;
    assert items[i..][0] == items[i] && items[i..][1..] == items[i + 1..];
  }

  lemma {:induction false} ArrayWritten(p: Platform, before: string, items: seq<Json>, indent: int, level: int,
          after: string)
    requires after == before + ['['] + Items(p, items, true, indent, level + indent) + Break(indent, level) + [']']
    ensures after == before + Text(p, Arr(items), indent, level)
  {
    hide Break, Items;
  }

  lemma {:induction false} MemberWritten(p: Platform, keys: seq<string>, values: seq<Json>, i: nat, indent: int,
          level: int, before: string, after: string)
    requires i < |keys| == |values|
    requires after == before + (if i == 0 then [] else [',']) + Break(indent, level) + Quoted(keys[i]) + Colon(indent) +
                      Text(p, values[i], indent, level)
    ensures before + Members(p, keys[i..], values[i..], i == 0, indent, level)
         == after + Members(p, keys[i + 1..], values[i + 1..], false, indent, level)
  {
    hide Break, Text, Quoted, Colon;
    assert keys[i..][0] == keys[i] && keys[i..][1..] == keys[i + 1..];
    assert values[i..][0] == values[i] && values[i..][1..] == values[i + 1..];
  }

  lemma {:induction false} ObjectWritten(p: Platform, before: string, keys: seq<string>, values: seq<Json>, indent: int,
          level: int, after: string)
    requires after ==
             before + ['{'] + Members(p, keys, values, true, indent, level + indent) + Break(indent, level) + ['}']
    ensures after == before + Text(p, Obj(keys, values), indent, level)
  {
    hide Break, Members;
  }
}
