// The parser: a cursor over the text, and two stacks shared by all nested
// arrays and objects, each back at its entry height after every success.
module JsonReading {
  import opened AssocList
  import opened JsonText
  import GrammarLaw
  import JsonGrammar

  class JSONParser {
    const text: string
    const p: Platform
    var cur: nat
    var arrayTempStack: seq<Json>
    var objectTempStack: seq<(string, Json)>

    constructor (text: string, p: Platform)
      ensures this.text == text && this.p == p && Valid() && cur == 0
      ensures arrayTempStack == [] && objectTempStack == []
    {
      this.text, this.p, cur := text, p, 0;
      arrayTempStack, objectTempStack := [], [];
    }

    predicate Valid()
      reads this
    {
      cur <= |text|
    }

    function Rest(): string
      requires Valid()
      reads this
    {
      text[cur..]
    }

    /** The method succeeds exactly when the function does, with its value, and stops where it stops. */
    predicate Took<T(==)>(ok: bool, out: T, r: Parsed<T>)
      requires Valid()
      reads this
    {
      ok == r.Done? && (ok ==> out == r.value && Rest() == r.rest)
    }

    /** The byte at the cursor; the one after the text is NUL. */
    function Byte(): char
      requires Valid()
      reads this
    {
      if cur < |text| then text[cur] else 0 as char
    }

    // ------------------------------------------------------------ the context

    method SkipSpaces()
      requires Valid()
      modifies `cur
      ensures Valid() && Rest() == JsonText.SkipSpaces(old(Rest()))
      ensures cur >= old(cur)
    {
      ghost var s := Rest();
      while cur != |text|
        invariant Valid() && cur >= old(cur) && JsonText.SkipSpaces(Rest()) == JsonText.SkipSpaces(s)
        decreases |text| - cur
      {
        if !(text[cur] == ' ' || text[cur] == '\t' || text[cur] == '\n' || text[cur] == '\r') {
          break;
        }
        assert Rest()[1..] == text[cur + 1..];
        cur := cur + 1;
      }
    }

    method MatchLiteral(pattern: string) returns (ok: bool)
      requires Valid()
      modifies `cur
      ensures Valid() && ok == StartsWith(old(Rest()), pattern)
      ensures ok ==> cur == old(cur) + |pattern| && Rest() == old(Rest())[|pattern|..]
    {
      ghost var s := Rest();
      var start, i := cur, 0;
      while i != |pattern| && cur != |text|
        invariant Valid() && i <= |pattern| && cur == start + i && s[..i] == pattern[..i]
        decreases |pattern| - i
      {
        if pattern[i] != text[cur] {
          Mismatch(s, pattern, i);
          return false;
        }
        assert s[..i + 1] == s[..i] + [s[i]];
        i, cur := i + 1, cur + 1;
      }
      assert pattern[..|pattern|] == pattern;
      return i == |pattern|;
    }

    /** The four digits of a code unit. */
    method Parse4Hex() returns (ok: bool, value: nat)
      requires Valid()
      modifies `cur
      ensures Valid() && ok == Hex4(old(Rest())).Some?
      ensures ok ==> value == Hex4(old(Rest())).value && cur == old(cur) + 4
    {
      ghost var s := Rest();
      Hex4IsPrefix(s);
      ok, value := true, 0;
      for i := 0 to 4
        invariant Valid() && cur == old(cur) + i && HexPrefix(s, i) == Some(value)
        invariant Hex4(s) == HexPrefix(s, 4)
      {
        var h := HexValue(Byte());
        if h.None? {
          HexStops(s, i + 1, 4);
          return false, 0;
        }
        value := value * 16 + h.value;
        cur := cur + 1;
      }
    }

    /** After the u of an escape. */
    method NextUnicode() returns (ok: bool, out: string)
      requires Valid()
      modifies `cur
      ensures Valid() && Took(ok, out, Unicode(old(Rest())))
    {
      ghost var s := Rest();
      var got, first := Parse4Hex();
      if !got { return false, []; }
      assert Rest() == s[4..];
      if 0xD800 <= first <= 0xDFFF {
        if first >= 0xDC00 { return false, []; }
        var more := MatchLiteral("\\u");
        if !more { return false, []; }
        assert Rest() == s[6..];
        var second;
        got, second := Parse4Hex();
        if !got || !(0xDC00 <= second <= 0xDFFF) { return false, []; }
        assert Rest() == s[10..];
        return true, Utf8((first - 0xD800) * 1024 + (second - 0xDC00) + 0x10000);
      }
      return true, Utf8(first);
    }

    /** After a backslash. */
    method NextEscape() returns (ok: bool, out: string)
      requires Valid()
      modifies `cur
      ensures Valid() && Took(ok, out, Escape(old(Rest())))
    {
      ghost var s := Rest();
      var c := Byte();
      if c !in {'"', '\\', '/', 'b', 'f', 'n', 'r', 't', 'u'} { return false, []; }
      cur := cur + 1;
      assert Rest() == s[1..];
      match c {
        case '"' => return true, ['"'];
        case '\\' => return true, ['\\'];
        case '/' => return true, ['/'];
        case 'b' => return true, [8 as char];
        case 'f' => return true, [12 as char];
        case 'n' => return true, ['\n'];
        case 'r' => return true, ['\r'];
        case 't' => return true, ['\t'];
        case _ => ok, out := NextUnicode();
      }
    }

    /** A string literal: a fast loop while there is nothing to decode, then full handling from where it stopped. */
    method NextString() returns (ok: bool, out: string)
      requires Valid() && cur < |text| && text[cur] == '"'
      modifies `cur
      ensures Valid() && Took(ok, out, StringBody(p, old(Rest())[1..]))
    {
      hide StringBody, Prepend, IsControl;
      var start := cur;
      cur := cur + 1;
      ghost var s := Rest();
      assert text[start..][1..] == s;
      PrependNothing(StringBody(p, s));
      assert text[start + 1..cur] == [];
      while cur != |text|
        invariant Valid() && start < cur
        invariant StringBody(p, s) == Prepend(text[start + 1..cur], StringBody(p, Rest()))
        decreases |text| - cur
      {
        QuoteIsNoControl(p);
        if text[cur] == '"' {
          out := text[start + 1..cur];
          BodyEnds(p, out, Rest());
          assert Rest()[1..] == text[cur + 1..];
          cur := cur + 1;
          return true, out;
        }
        if IsControl(p, text[cur]) || text[cur] == '\\' {
          ok, out := NextStringWithFullHandling(text[start + 1..cur]);
          return;
        }
        BodyGoesOn(p, text[start + 1..cur], Rest());
        assert Rest()[1..] == text[cur + 1..] && text[start + 1..cur] + [text[cur]] == text[start + 1..cur + 1];
        cur := cur + 1;
      }
      BodyUnterminated(p, text[start + 1..cur]);
      return false, [];
    }

    method NextStringWithFullHandling(prefix: string) returns (ok: bool, out: string)
      requires Valid()
      modifies `cur
      ensures Valid() && Took(ok, out, Prepend(prefix, StringBody(p, old(Rest()))))
    {
      hide StringBody, Prepend, Escape, IsControl;
      ghost var s := Rest();
      out := prefix;
      while cur != |text|
        invariant Valid() && Prepend(prefix, StringBody(p, s)) == Prepend(out, StringBody(p, Rest()))
        decreases |text| - cur
      {
        ghost var now := Rest();
        assert now[1..] == text[cur + 1..];
        if IsControl(p, text[cur]) {
          BodyControl(p, out, now);
          return false, [];
        }
        if text[cur] == '"' {
          BodyEnds(p, out, now);
          cur := cur + 1;
          return true, out;
        }
        if text[cur] == '\\' {
          cur := cur + 1;
          var got, more := NextEscape();
          BodyEscape(p, out, now);
          if !got { return false, []; }
          out := out + more;
        } else {
          BodyGoesOn(p, out, now);
          out := out + [text[cur]];
          cur := cur + 1;
        }
      }
      BodyUnterminated(p, out);
      return false, [];
    }

    /** A number, Infinity or NaN: the lexeme is collected first, then read as a 64-bit integer or else as a double. */
    method NextNumber() returns (ok: bool, out: Json)
      requires Valid() && cur < |text|
      modifies `cur
      ensures Valid() && Took(ok, out, Number(p, old(Rest())))
    {
      hide NumberSpan, IntOf, MaybeInt;
      WordsOf(Rest());
      if text[cur] == '-' {
        if cur + 1 < |text| && text[cur + 1] == 'I' {
          ok, out := Word("-Infinity", NEG_INF);
          return;
        }
      } else if text[cur] == 'I' {
        ok, out := Word("Infinity", POS_INF);
        return;
      } else if text[cur] == 'N' {
        ok, out := Word("NaN", NAN);
        return;
      }
      var buffer, maybeInt := NextLexeme();
      if buffer == [] { return false, Null; }
      if maybeInt {
        var n := IntOf(buffer);
        if n.Some? { return true, Int(n.value); }
      }
      var d := p.strtod(buffer);
      if d.Some? { return true, Float(d.value); }
      return false, Null;
    }

    /** All bytes that may be part of a number, and whether none of them makes it a double. */
    method NextLexeme() returns (buffer: string, maybeInt: bool)
      requires Valid()
      modifies `cur
      ensures Valid() && var s := old(Rest()); var n := NumberSpan(s);
              buffer == s[..n] && Rest() == s[n..] && maybeInt == MaybeInt(buffer)
    {
      ghost var s := Rest();
      var start := cur;
      maybeInt := true;
      while cur != |text| && IsNumberChar(text[cur])
        invariant Valid() && start <= cur && NumberSpan(s) == cur - start + NumberSpan(Rest())
        invariant maybeInt == MaybeInt(text[start..cur])
        decreases |text| - cur
      {
        var c := text[cur];
        assert Rest()[1..] == text[cur + 1..] && text[start..cur + 1] == text[start..cur] + [c];
        if c == '.' || c == 'e' || c == 'E' { maybeInt := false; }
        cur := cur + 1;
      }
      buffer := text[start..cur];
      assert buffer == s[..NumberSpan(s)] && Rest() == s[NumberSpan(s)..];
    }

    method Word(pattern: string, bits: nat) returns (ok: bool, out: Json)
      requires Valid() && pattern != []
      modifies `cur
      ensures Valid() && Took(ok, out, Literal(old(Rest()), pattern, Float(bits)))
    {
      out := Float(bits);
      ok := MatchLiteral(pattern);
    }

    // -------------------------------------------------------------- the parser

    method Parse() returns (value: Option<Json>)
      requires Valid() && cur == 0
      modifies this
      ensures value == JsonText.Parse(p, text)
      ensures forall v :: value == Some(v) <==> exists d :: JsonGrammar.Derives(p, d, text, v)
      ensures value.Some? ==> arrayTempStack == old(arrayTempStack) && objectTempStack == old(objectTempStack)
    {
      forall v ensures JsonText.Parse(p, text) == Some(v) <==> exists d :: JsonGrammar.Derives(p, d, text, v) {
        GrammarLaw.ParsesExactly(p, text, v);
      }
      assert Rest() == text;
      var ok, out := ParseValue();
      if !ok { return None; }
      SkipSpaces();
      if cur != |text| { return None; }
      return Some(out);
    }

    method ParseValue() returns (ok: bool, out: Json)
      requires Valid()
      modifies this
      ensures Valid() && (ok ==> cur > old(cur)) && Took(ok, out, JsonText.ParseValue(p, old(Rest())))
      ensures ok ==> arrayTempStack == old(arrayTempStack) && objectTempStack == old(objectTempStack)
      decreases |text| - cur, 1
    {
      ghost var before := Rest();
      SkipSpaces();
      if cur == |text| { return false, Null; }
      ghost var s := Rest();
      var c := text[cur];
      if c == '{' {
        ok, out := ParseObject();
      } else if c == '[' {
        ok, out := ParseArray();
      } else if c == '"' {
        var t;
        ok, t := NextString();
        out := Str(t);
      } else if c == 't' {
        out := Bool(true);
        ok := MatchLiteral("true");
      } else if c == 'f' {
        out := Bool(false);
        ok := MatchLiteral("false");
      } else if c == 'n' {
        out := Null;
        ok := MatchLiteral("null");
      } else {
        ok, out := NextNumber();
      }
    }

    method ParseArray() returns (ok: bool, out: Json)
      requires Valid() && cur < |text| && text[cur] == '['
      modifies this
      ensures Valid() && (ok ==> cur > old(cur)) && Took(ok, out, JsonText.ParseArray(p, old(Rest())[1..]))
      ensures ok ==> arrayTempStack == old(arrayTempStack) && objectTempStack == old(objectTempStack)
      decreases |text| - cur, 0
    {
      hide Elements;
      assert text[cur + 1..] == Rest()[1..];
      cur := cur + 1;
      SkipSpaces();
      if cur == |text| { return false, Null; }
      if text[cur] == ']' {
        assert Rest()[1..] == text[cur + 1..];
        cur := cur + 1;
        return true, Arr([]);
      }
      ok, out := ParseElements(|arrayTempStack|);
    }

    /** The loop of ParseArray; what lies above stackTop belongs to this array. */
    method ParseElements(stackTop: nat) returns (ok: bool, out: Json)
      requires Valid() && cur < |text| && stackTop == |arrayTempStack|
      modifies this
      ensures Valid() && (ok ==> cur > old(cur)) && Took(ok, out, Elements(p, old(Rest()), []))
      ensures ok ==> arrayTempStack == old(arrayTempStack) && objectTempStack == old(objectTempStack)
      decreases |text| - cur, 2
    {
      hide Elements, JsonText.ParseValue, JsonText.SkipSpaces;
      ghost var stack, start, items := arrayTempStack, Rest(), [];
      while cur != |text|
        invariant Valid() && cur >= old(cur)
        invariant arrayTempStack == stack + items && objectTempStack == old(objectTempStack)
        invariant Elements(p, Rest(), items) == Elements(p, start, [])
        decreases |text| - cur
      {
        ElementsUnfold(p, Rest(), items);
        var value;
        ok, value := ParseValue();
        if !ok { return false, Null; }
        arrayTempStack := arrayTempStack + [value];
        items := items + [value];
        assert arrayTempStack == stack + items;
        SkipSpaces();
        if cur == |text| { return false, Null; }
        assert Rest()[1..] == text[cur + 1..];
        if text[cur] == ',' {
          cur := cur + 1;
          SkipSpaces();
        } else if text[cur] == ']' {
          cur := cur + 1;
          AboveTop(stack, items);
          out := Arr(arrayTempStack[stackTop..]);
          arrayTempStack := arrayTempStack[..stackTop];
          return true, out;
        } else {
          return false, Null;
        }
      }
      ElementsAtEnd(p, items);
      return false, Null;
    }

    method ParseObject() returns (ok: bool, out: Json)
      requires Valid() && cur < |text| && text[cur] == '{'
      modifies this
      ensures Valid() && (ok ==> cur > old(cur)) && Took(ok, out, JsonText.ParseObject(p, old(Rest())[1..]))
      ensures ok ==> arrayTempStack == old(arrayTempStack) && objectTempStack == old(objectTempStack)
      decreases |text| - cur, 0
    {
      hide Entries;
      assert text[cur + 1..] == Rest()[1..];
      cur := cur + 1;
      SkipSpaces();
      if cur == |text| { return false, Null; }
      if text[cur] == '}' {
        assert Rest()[1..] == text[cur + 1..];
        cur := cur + 1;
        return true, Obj([], []);
      }
      ok, out := ParseEntries(|objectTempStack|);
    }

    /** The loop of ParseObject. */
    method ParseEntries(stackTop: nat) returns (ok: bool, out: Json)
      requires Valid() && cur < |text| && stackTop == |objectTempStack|
      modifies this
      ensures Valid() && (ok ==> cur > old(cur)) && Took(ok, out, Entries(p, old(Rest()), []))
      ensures ok ==> arrayTempStack == old(arrayTempStack) && objectTempStack == old(objectTempStack)
      decreases |text| - cur, 3
    {
      hide Entries, OneEntry, MakeObj, JsonText.SkipSpaces;
      ghost var stack, start, entries := objectTempStack, Rest(), [];
      while cur != |text|
        invariant Valid() && cur >= old(cur)
        invariant objectTempStack == stack + entries && arrayTempStack == old(arrayTempStack)
        invariant Entries(p, Rest(), entries) == Entries(p, start, [])
        decreases |text| - cur
      {
        EntriesUnfold(p, Rest(), entries);
        var entry;
        ok, entry := ParseEntry();
        if !ok { return false, Null; }
        objectTempStack := objectTempStack + [entry];
        entries := entries + [entry];
        assert objectTempStack == stack + entries;
        SkipSpaces();
        if cur == |text| { return false, Null; }
        assert Rest()[1..] == text[cur + 1..];
        if text[cur] == '}' {
          cur := cur + 1;
          AboveTop(stack, entries);
          out := MakeObj(objectTempStack[stackTop..]);
          objectTempStack := objectTempStack[..stackTop];
          return true, out;
        } else if text[cur] == ',' {
          cur := cur + 1;
          SkipSpaces();
        } else {
          return false, Null;
        }
      }
      EntriesAtEnd(p, entries);
      return false, Null;
    }

    /** Key, colon and value. */
    method ParseEntry() returns (ok: bool, entry: (string, Json))
      requires Valid() && cur < |text|
      modifies this
      ensures Valid() && (ok ==> cur > old(cur)) && Took(ok, entry, OneEntry(p, old(Rest())))
      ensures ok ==> arrayTempStack == old(arrayTempStack) && objectTempStack == old(objectTempStack)
      decreases |text| - cur, 2
    {
      hide StringBody, JsonText.ParseValue;
      entry := ([], Null);
      if text[cur] != '"' { return false, entry; }
      var key, value;
      ok, key := NextString();
      if !ok { return; }
      SkipSpaces();
      if cur == |text| || text[cur] != ':' { return false, entry; }
      assert Rest()[1..] == text[cur + 1..];
      cur := cur + 1;
      ok, value := ParseValue();
      entry := (key, value);
    }
  }

  /** One round of the array loop, on success and on failure. */
  lemma ElementsUnfold(p: Platform, s: string, before: seq<Json>)
    ensures var v := ParseValue(p, s);
            var t := if v.Done? then SkipSpaces(v.rest) else [];
            if t == [] || t[0] !in {',', ']'} then Elements(p, s, before).Fail?
            else if t[0] == ']' then Elements(p, s, before) == Done(Arr(before + [v.value]), t[1..])
            else Elements(p, s, before) == Elements(p, SkipSpaces(t[1..]), before + [v.value])
  {
    hide ParseValue, SkipSpaces;
    var v := ParseValue(p, s);
    if v.Done? { ElementsAtEnd(p, before + [v.value]); }
  }

  lemma ElementsAtEnd(p: Platform, before: seq<Json>)
    ensures Elements(p, [], before).Fail?
  {
    assert ParseValue(p, []).Fail?;
  }

  function OneEntry(p: Platform, s: string): (r: Parsed<(string, Json)>)
    ensures r.Done? ==> |r.rest| < |s|
  {
    if s == [] || s[0] != '"' || StringBody(p, s[1..]).Fail? then Fail
    else
      var key := StringBody(p, s[1..]);
      var c := SkipSpaces(key.rest);
      if c == [] || c[0] != ':' || ParseValue(p, c[1..]).Fail? then Fail
      else
        var v := ParseValue(p, c[1..]);
        Done((key.value, v.value), v.rest)
  }

  /** One round of the object loop. */
  lemma EntriesUnfold(p: Platform, s: string, before: seq<(string, Json)>)
    ensures var e := OneEntry(p, s);
            var t := if e.Done? then SkipSpaces(e.rest) else [];
            if t == [] || t[0] !in {',', '}'} then Entries(p, s, before).Fail?
            else if t[0] == '}' then Entries(p, s, before) == Done(MakeObj(before + [e.value]), t[1..])
            else Entries(p, s, before) == Entries(p, SkipSpaces(t[1..]), before + [e.value])
  {
    hide ParseValue, SkipSpaces, StringBody, MakeObj;
  }

  lemma EntriesAtEnd(p: Platform, before: seq<(string, Json)>)
    ensures Entries(p, [], before).Fail?
  {
  }

  /** Which of the three words a number may be is settled by its first bytes. */
  lemma WordsOf(s: string)
    requires s != []
    ensures StartsWith(s, "-I") <==> s[0] == '-' && |s| > 1 && s[1] == 'I'
    ensures StartsWith(s, "I") <==> s[0] == 'I'
    ensures StartsWith(s, "N") <==> s[0] == 'N'
  {
    assert s[..1] == [s[0]];
    if |s| > 1 { assert s[..2] == [s[0], s[1]]; }
  }

  lemma AboveTop<T>(stack: seq<T>, items: seq<T>)
    ensures (stack + items)[|stack|..] == items && (stack + items)[..|stack|] == stack
  {
  }

  lemma Mismatch(s: string, pattern: string, i: nat)
    requires i < |s| && i < |pattern| && s[i] != pattern[i]
    ensures !StartsWith(s, pattern)
  {
    if |pattern| <= |s| {
      assert s[..|pattern|][i] == s[i];
    }
  }

  /** The value of the first n hex digits. */
  function HexPrefix(s: string, n: nat): Option<nat> {
    if n == 0 then Some(0)
    else
      var h := HexPrefix(s, n - 1);
      if h.None? || |s| < n || HexValue(s[n - 1]).None? then None else Some(h.value * 16 + HexValue(s[n - 1]).value)
  }

  lemma Hex4IsPrefix(s: string)
    ensures Hex4(s) == HexPrefix(s, 4)
  {
    assert HexPrefix(s, 0) == Some(0);
    assert HexPrefix(s, 1) == if |s| < 1 then None else HexValue(s[0]);
    assert HexPrefix(s, 2) == if |s| < 2 || HexPrefix(s, 1).None? || HexValue(s[1]).None? then None
                              else Some(HexPrefix(s, 1).value * 16 + HexValue(s[1]).value);
    assert HexPrefix(s, 3) == if |s| < 3 || HexPrefix(s, 2).None? || HexValue(s[2]).None? then None
                              else Some(HexPrefix(s, 2).value * 16 + HexValue(s[2]).value);
  }

  lemma {:induction false} HexStops(s: string, m: nat, n: nat)
    requires m <= n && HexPrefix(s, m).None?
    ensures HexPrefix(s, n).None?
  {
    if m < n { HexStops(s, m, n - 1); }
  }

  lemma PrependNothing(r: Parsed<string>)
    ensures Prepend([], r) == r
  {
    if r.Done? { assert [] + r.value == r.value; }
  }

  lemma BodyEnds(p: Platform, before: string, s: string)
    requires s != [] && s[0] == '"' && !IsControl(p, s[0])
    ensures Prepend(before, StringBody(p, s)) == Done(before, s[1..])
  {
    assert before + [] == before;
  }

  lemma QuoteIsNoControl(p: Platform)
    ensures !IsControl(p, '"')
  {
  }

  lemma BodyControl(p: Platform, before: string, s: string)
    requires s != [] && IsControl(p, s[0])
    ensures Prepend(before, StringBody(p, s)).Fail?
  {
  }

  lemma BodyUnterminated(p: Platform, before: string)
    ensures Prepend(before, StringBody(p, [])).Fail?
  {
  }

  lemma BodyGoesOn(p: Platform, before: string, s: string)
    requires s != [] && !IsControl(p, s[0]) && s[0] != '"' && s[0] != '\\'
    ensures Prepend(before, StringBody(p, s)) == Prepend(before + [s[0]], StringBody(p, s[1..]))
  {
    hide IsControl, Escape;
    assert StringBody(p, s) == Prepend([s[0]], StringBody(p, s[1..]));
    PrependTwice(before, [s[0]], StringBody(p, s[1..]));
  }

  lemma PrependTwice(a: string, b: string, r: Parsed<string>)
    ensures Prepend(a, Prepend(b, r)) == Prepend(a + b, r)
  {
    if r.Done? { assert a + (b + r.value) == a + b + r.value; }
  }

  lemma BodyEscape(p: Platform, before: string, s: string)
    requires s != [] && !IsControl(p, s[0]) && s[0] == '\\'
    ensures var e := Escape(s[1..]);
            if e.Fail? then Prepend(before, StringBody(p, s)).Fail?
            else Prepend(before, StringBody(p, s)) == Prepend(before + e.value, StringBody(p, e.rest))
  {
    hide IsControl, Escape;
    var e := Escape(s[1..]);
    if e.Done? { PrependTwice(before, e.value, StringBody(p, e.rest)); }
  }
}
