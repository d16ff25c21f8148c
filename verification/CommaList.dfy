/**
 Lists given as one comma-separated string (common/config/src/argv.rs:498-558).

 Strings are ASCII here: the original mixes byte positions and character positions.
 */
module CommaList {
  import opened Prelude

  const COMMA: char := ','
  const ESCAPE: char := '\\'

  predicate IsSpace(c: char) { c == ' ' || 9 <= c as int <= 13 }

  function TrimStart(s: string): (t: string)
    ensures |t| <= |s|
    ensures t == s <==> s == "" || !IsSpace(s[0])
  {
    if s != "" && IsSpace(s[0]) then TrimStart(s[1..]) else s
  }

  function TrimEnd(s: string): (t: string)
    ensures |t| <= |s|
    ensures t == s <==> s == "" || !IsSpace(s[|s| - 1])
  {
    if s != "" && IsSpace(s[|s| - 1]) then TrimEnd(s[..|s| - 1]) else s
  }

  function Combine(escaped: string, token: string): string {
    if escaped == "" then TrimEnd(TrimStart(token)) else TrimStart(escaped) + TrimEnd(token)
  }

  /** Position of the first comma, or the length. */
  function Find(s: string): (i: nat)
    ensures i <= |s|
    ensures i < |s| ==> s[i] == COMMA
    ensures forall k :: 0 <= k < i ==> s[k] != COMMA
  {
    if s == "" || s[0] == COMMA then 0 else 1 + Find(s[1..])
  }

  /** The scan: what is still to be produced, with `escaped` carried over and `s` unread. */
  function Parse(escaped: string, s: string): seq<string>
    decreases |s|
  {
    var i := Find(s);
    if i == |s| then (if escaped == "" && s == "" then [] else [Combine(escaped, s)])
    else if i == 0 then Parse(escaped, s[1..])
    else if s[i - 1] == ESCAPE then Parse(escaped + s[..i - 1] + [COMMA], s[i + 1..])
    else [Combine(escaped, s[..i])] + Parse("", s[i + 1..])
  }

  function WithCsvSpec(values: seq<string>): seq<string> {
    if |values| != 1 then values
    else if COMMA in values[0] then Parse("", values[0])
    else values
  }

  /** Space, tab, line feed, vertical tab, form feed and carriage return. */
  lemma SpacesAre(c: char)
    ensures IsSpace(c) <==> c in [' ', '\t', '\n', 11 as char, 12 as char, '\r']
  {
  }

  method WithCsv(values: seq<string>) returns (result: seq<string>)
    ensures result == WithCsvSpec(values)
    ensures |values| != 1 || COMMA !in values[0] ==> result == values
  {
    if |values| != 1 {
      return values;
    }
    var v := values[0];
    if COMMA in v {
      result := [];
      var s, escaped := v, "";
      while Find(s) < |s|
        invariant result + Parse(escaped, s) == Parse("", v)
        decreases |s|
      {
        var index := Find(s);
        if index > 0 {
          if s[index - 1] == ESCAPE {
            escaped := escaped + s[..index - 1] + [COMMA];
            s := s[index + 1..];
            continue;
          }
          assert result + ([Combine(escaped, s[..index])] + Parse("", s[index + 1..]))
              == result + [Combine(escaped, s[..index])] + Parse("", s[index + 1..]);
          result := result + [Combine(escaped, s[..index])];
          escaped := "";
        }
        s := s[index + 1..];
      }
      if escaped != "" || s != "" {
        result := result + [Combine(escaped, s)];
      } else {
        assert result + [] == result;
      }
      return result;
    }
    return [v];
  }

  // ----- the printer

  function Escape(item: string): string {
    if item == "" then "" else (if item[0] == COMMA then [ESCAPE, COMMA] else [item[0]]) + Escape(item[1..])
  }

  /** The list as one string: inner commas escaped, items separated by commas. */
  function Print(items: seq<string>): string
    requires items != []
  {
    if |items| == 1 then Escape(items[0]) else Escape(items[0]) + [COMMA] + Print(items[1..])
  }

  // ----- an item is what goes up to its last comma, and the rest

  function UpToLastComma(item: string): string
    decreases |item|
  {
    var i := Find(item);
    if i == |item| then "" else item[..i + 1] + UpToLastComma(item[i + 1..])
  }

  function AfterLastComma(item: string): (t: string)
    ensures COMMA !in t && |t| <= |item|
    decreases |item|
  {
    var i := Find(item);
    if i == |item| then item else AfterLastComma(item[i + 1..])
  }

  lemma {:induction false} ItemParts(item: string)
    ensures item == UpToLastComma(item) + AfterLastComma(item)
    decreases |item|
  {
    var i := Find(item);
    if i < |item| {
      var rest := item[i + 1..];
      ItemParts(rest);
      Rejoined(item, i + 1, UpToLastComma(rest), AfterLastComma(rest));
    }
  }

  lemma Rejoined(s: string, i: nat, p: string, t: string)
    requires i <= |s| && s[i..] == p + t
    ensures s == (s[..i] + p) + t
  {
    assert s == s[..i] + s[i..];
  }

  lemma {:induction false} EndsInComma(item: string)
    ensures var p := UpToLastComma(item); p != "" ==> p[|p| - 1] == COMMA
    decreases |item|
  {
    var i := Find(item);
    if i < |item| {
      var p := UpToLastComma(item[i + 1..]);
      EndsInComma(item[i + 1..]);
      LastOfConcat(item[..i + 1], p);
    }
  }

  lemma LastOfConcat(a: string, b: string)
    requires a != ""
    ensures (a + b)[|a + b| - 1] == if b == "" then a[|a| - 1] else b[|b| - 1]
  {
  }

  lemma {:induction false} FindSkips(head: string, tail: string)
    requires COMMA !in head
    ensures Find(head + tail) == |head| + Find(tail)
  {
    if head == "" {
      assert head + tail == tail;
    } else {
      assert head[0] in head;
      assert (head + tail)[1..] == head[1..] + tail;
      FindSkips(head[1..], tail);
    }
  }

  lemma {:induction false} EscapeSplits(head: string, tail: string)
    requires COMMA !in head
    ensures Escape(head + tail) == head + Escape(tail)
  {
    if head == "" {
      assert head + tail == tail;
    } else {
      assert head[0] in head;
      assert (head + tail)[1..] == head[1..] + tail;
      EscapeSplits(head[1..], tail);
    }
  }

  lemma EscapeAtComma(head: string, rest: string)
    requires COMMA !in head
    ensures Escape(head + ([COMMA] + rest)) == head + [ESCAPE, COMMA] + Escape(rest)
  {
    var tail := [COMMA] + rest;
    EscapeSplits(head, tail);
    assert tail[1..] == rest;
    assert Escape(tail) == [ESCAPE, COMMA] + Escape(rest);
    Assoc(head, [ESCAPE, COMMA], Escape(rest), "");
  }

  lemma SplitAt(s: string, i: nat)
    requires i < |s|
    ensures s == s[..i] + ([s[i]] + s[i + 1..])
    ensures s[..i + 1] == s[..i] + [s[i]]
  {
  }

  lemma EscapePlain(item: string)
    requires COMMA !in item
    ensures Escape(item) == item
  {
    EscapeSplits(item, "");
    assert item + "" == item;
  }

  lemma Assoc(a: string, b: string, c: string, d: string)
    ensures a + b + c + d == a + (b + c + d) == a + b + (c + d) == a + (b + c) + d
    ensures a + b + c == a + (b + c)
  {
  }

  /** Scanning over the escaped commas of an item moves everything up to the last one into `escaped`. */
  lemma {:induction false} ParseEscaped(escaped: string, item: string, w: string)
    ensures Parse(escaped, Escape(item) + w) == Parse(escaped + UpToLastComma(item), AfterLastComma(item) + w)
    decreases |item|
  {
    var j := Find(item);
    if j == |item| {
      EscapePlain(item);
      assert escaped + "" == escaped;
    } else {
      var head, rest := item[..j], item[j + 1..];
      SplitAt(item, j);
      assert COMMA !in head;
      EscapeAtComma(head, rest);
      Assoc(head, [ESCAPE, COMMA], Escape(rest), w);
      OneEscapedComma(escaped, head, Escape(item) + w, Escape(rest) + w);
      ParseEscaped(escaped + head + [COMMA], rest, w);
      Assoc(escaped, head, [COMMA], UpToLastComma(rest));
    }
  }

  lemma OneEscapedComma(escaped: string, head: string, text: string, more: string)
    requires COMMA !in head && text == head + [ESCAPE, COMMA] + more
    ensures Parse(escaped, text) == Parse(escaped + head + [COMMA], more)
  {
    var upTo := head + [ESCAPE];
    assert text == upTo + ([COMMA] + more);
    FindSkips(upTo, [COMMA] + more);
    assert Find(text) == |head| + 1;
    assert text[..|head|] == head && text[|head| + 2..] == more;
  }

  predicate Trimmed(s: string) { s != "" && !IsSpace(s[0]) && !IsSpace(s[|s| - 1]) }

  /** Followed by a separator, the item comes out as one token. */
  predicate Separable(item: string) {
    item != "" && item[|item| - 1] != COMMA && item[|item| - 1] != ESCAPE
  }

  predicate Printable(items: seq<string>)
    requires items != []
  {
    Trimmed(items[0]) && (|items| == 1 || (Separable(items[0]) && Printable(items[1..])))
  }

  /** The last token comes back as the item exactly when the item is not empty and has no space at its ends. */
  lemma LastToken(item: string)
    ensures Parse("", Escape(item)) == [item] <==> Trimmed(item)
  {
    var p, t := UpToLastComma(item), AfterLastComma(item);
    AtEnd("", item);
    assert "" + p == p;
    ItemParts(item);
    EndsInComma(item);
    CombineParts(item, p, t);
  }

  lemma AtEnd(escaped: string, item: string)
    ensures var p, t := UpToLastComma(item), AfterLastComma(item);
            Parse(escaped, Escape(item)) ==
            if escaped + p == "" && t == "" then [] else [Combine(escaped + p, t)]
  {
    var t := AfterLastComma(item);
    ParseEscaped(escaped, item, "");
    assert Escape(item) + "" == Escape(item) && t + "" == t;
    FindSkips(t, "");
  }

  lemma CombineParts(item: string, p: string, t: string)
    requires item == p + t && (p != "" ==> p[|p| - 1] == COMMA)
    ensures item != "" ==> (Combine(p, t) == item <==> Trimmed(item))
  {
    if item != "" {
      if p == "" {
        assert item == t;
        if TrimStart(t) != t { assert |TrimEnd(TrimStart(t))| < |t| by { ShorterStart(t); } }
      } else {
        ShorterStart(p);
        ShorterEnd(t);
        if TrimStart(p) == p && TrimEnd(t) == t {
          assert t == "" ==> item[|item| - 1] == COMMA;
        }
      }
    }
  }

  lemma ShorterStart(s: string)
    ensures TrimStart(s) == s || |TrimStart(s)| < |s|
  {
  }

  lemma ShorterEnd(s: string)
    ensures TrimEnd(s) == s || |TrimEnd(s)| < |s|
  {
  }

  lemma AtSeparator(escaped: string, t: string, rest: string)
    requires COMMA !in t
    ensures Parse(escaped, t + ([COMMA] + rest)) ==
            if t == "" then Parse(escaped, rest)
            else if t[|t| - 1] == ESCAPE then Parse(escaped + t[..|t| - 1] + [COMMA], rest)
            else [Combine(escaped, t)] + Parse("", rest)
  {
    var w := [COMMA] + rest;
    FindSkips(t, w);
    assert Find(w) == 0 && Find(t + w) == |t|;
    assert (t + w)[..|t|] == t && (t + w)[|t| + 1..] == rest;
    if t != "" { assert t[..|t| - 1] == (t + w)[..|t| - 1] && (t + w)[|t| - 1] == t[|t| - 1]; }
  }

  lemma SeparableTail(item: string)
    ensures Separable(item) <==> AfterLastComma(item) != "" && AfterLastComma(item)[|AfterLastComma(item)| - 1] != ESCAPE
  {
    var p, t := UpToLastComma(item), AfterLastComma(item);
    ItemParts(item);
    EndsInComma(item);
    if p != "" { LastOfConcat(p, t); } else { assert item == t; }
    if t != "" { assert t[|t| - 1] in t; }
  }

  /** One item and its separator: a token, if the item is separable, and otherwise none. */
  lemma OneItem(escaped: string, item: string, rest: string)
    ensures var p, t := UpToLastComma(item), AfterLastComma(item);
            Parse(escaped, Escape(item) + [COMMA] + rest) ==
            if t == "" then Parse(escaped + p, rest)
            else if t[|t| - 1] == ESCAPE then Parse(escaped + p + t[..|t| - 1] + [COMMA], rest)
            else [Combine(escaped + p, t)] + Parse("", rest)
  {
    var p, t := UpToLastComma(item), AfterLastComma(item);
    ParseEscaped(escaped, item, [COMMA] + rest);
    assert Escape(item) + [COMMA] + rest == Escape(item) + ([COMMA] + rest);
    AtSeparator(escaped + p, t, rest);
  }

  /** There are never more tokens than items. */
  lemma {:induction false} AtMostOneTokenEach(escaped: string, items: seq<string>)
    requires items != []
    ensures |Parse(escaped, Print(items))| <= |items|
    decreases |items|
  {
    var item := items[0];
    if |items| == 1 {
      AtEnd(escaped, item);
    } else {
      var p, t := UpToLastComma(item), AfterLastComma(item);
      OneItem(escaped, item, Print(items[1..]));
      AtMostOneTokenEach(escaped + p, items[1..]);
      AtMostOneTokenEach("", items[1..]);
      if t != "" { AtMostOneTokenEach(escaped + p + t[..|t| - 1] + [COMMA], items[1..]); }
    }
  }

  lemma {:induction false} ParsePrint(items: seq<string>)
    requires items != []
    ensures Parse("", Print(items)) == items <==> Printable(items)
    decreases |items|
  {
    if |items| == 1 {
      LastToken(items[0]);
      assert items == [items[0]];
    } else {
      ParsePrint(items[1..]);
      assert items == [items[0]] + items[1..];
      if Separable(items[0]) { SeparableHead(items[0], items[1..]); } else { InseparableHead(items[0], items[1..]); }
    }
  }

  lemma SeparableHead(item: string, rest: seq<string>)
    requires rest != [] && Separable(item)
    ensures Parse("", Escape(item) + [COMMA] + Print(rest)) == [item] + rest <==>
            Trimmed(item) && Parse("", Print(rest)) == rest
  {
    var p, t := UpToLastComma(item), AfterLastComma(item);
    OneItem("", item, Print(rest));
    assert "" + p == p;
    ItemParts(item);
    EndsInComma(item);
    SeparableTail(item);
    CombineParts(item, p, t);
    HeadAndTail(Combine(p, t), Parse("", Print(rest)), item, rest);
  }

  lemma InseparableHead(item: string, rest: seq<string>)
    requires rest != [] && !Separable(item)
    ensures |Parse("", Escape(item) + [COMMA] + Print(rest))| <= |rest|
  {
    var p, t := UpToLastComma(item), AfterLastComma(item);
    OneItem("", item, Print(rest));
    assert "" + p == p;
    SeparableTail(item);
    AtMostOneTokenEach(p, rest);
    if t != "" { AtMostOneTokenEach(p + t[..|t| - 1] + [COMMA], rest); }
  }

  lemma HeadAndTail(a: string, s: seq<string>, b: string, t: seq<string>)
    ensures [a] + s == [b] + t <==> a == b && s == t
  {
    if [a] + s == [b] + t {
      assert ([a] + s)[0] == a && ([b] + t)[0] == b;
      assert ([a] + s)[1..] == s && ([b] + t)[1..] == t;
    }
  }

  // ----- items with spaces around them

  function Trim(s: string): string { TrimEnd(TrimStart(s)) }

  predicate AllSpaces(s: string) { forall c :: c in s ==> IsSpace(c) }

  lemma {:induction false} TrimStartMeans(s: string) returns (spaces: string)
    ensures AllSpaces(spaces) && s == spaces + TrimStart(s) && (TrimStart(s) != "" ==> !IsSpace(TrimStart(s)[0]))
  {
    if s != "" && IsSpace(s[0]) {
      var more := TrimStartMeans(s[1..]);
      spaces := [s[0]] + more;
      assert s == [s[0]] + s[1..];
    } else {
      spaces := "";
    }
  }

  lemma {:induction false} TrimEndMeans(s: string) returns (spaces: string)
    ensures AllSpaces(spaces) && s == TrimEnd(s) + spaces && (TrimEnd(s) != "" ==> !IsSpace(TrimEnd(s)[|TrimEnd(s)| - 1]))
    ensures TrimEnd(s) != "" ==> TrimEnd(s)[0] == s[0]
  {
    if s != "" && IsSpace(s[|s| - 1]) {
      var more := TrimEndMeans(s[..|s| - 1]);
      spaces := more + [s[|s| - 1]];
      assert s == s[..|s| - 1] + [s[|s| - 1]];
    } else {
      spaces := "";
      assert s == s + "";
    }
  }

  /** Trimming takes off all the spaces at both ends, and nothing else. */
  lemma TrimMeans(s: string) returns (before: string, after: string)
    ensures AllSpaces(before) && AllSpaces(after) && s == before + Trim(s) + after
    ensures Trim(s) == "" || Trimmed(Trim(s))
  {
    before := TrimStartMeans(s);
    after := TrimEndMeans(TrimStart(s));
    assert before + (Trim(s) + after) == before + Trim(s) + after;
  }

  lemma {:induction false} TrimStartConcat(p: string, t: string)
    requires p != "" && !IsSpace(p[|p| - 1])
    ensures TrimStart(p + t) == TrimStart(p) + t && TrimStart(p) != "" && TrimStart(p)[|TrimStart(p)| - 1] == p[|p| - 1]
  {
    if IsSpace(p[0]) {
      assert (p + t)[1..] == p[1..] + t;
      TrimStartConcat(p[1..], t);
    }
  }

  lemma {:induction false} TrimEndConcat(p: string, t: string)
    requires p != "" && !IsSpace(p[|p| - 1])
    ensures TrimEnd(p + t) == p + TrimEnd(t)
    decreases |t|
  {
    if t != "" && IsSpace(t[|t| - 1]) {
      assert (p + t)[..|p + t| - 1] == p + t[..|t| - 1];
      TrimEndConcat(p, t[..|t| - 1]);
    } else if t == "" {
      assert p + t == p;
    }
  }

  /** Put together from its escaped part and the rest, an item comes back trimmed. */
  lemma CombineTrims(item: string)
    ensures Combine(UpToLastComma(item), AfterLastComma(item)) == Trim(item)
  {
    var p, t := UpToLastComma(item), AfterLastComma(item);
    ItemParts(item);
    EndsInComma(item);
    if p == "" {
      assert item == t;
    } else {
      TrimStartConcat(p, t);
      TrimEndConcat(TrimStart(p), t);
    }
  }

  function TrimAll(items: seq<string>): seq<string> {
    if items == [] then [] else [Trim(items[0])] + TrimAll(items[1..])
  }

  predicate AllSeparable(items: seq<string>)
    requires items != []
  {
    if |items| == 1 then items[0] != "" else Separable(items[0]) && AllSeparable(items[1..])
  }

  /**
   Whatever spaces there are around the items, as in `a, b`: a printed list reads
   back as its items, trimmed, if the last one is not empty and the others end
   neither in a comma nor in a backslash.
   */
  lemma {:induction false} TokensAreTrimmed(items: seq<string>)
    requires items != [] && AllSeparable(items)
    ensures Parse("", Print(items)) == TrimAll(items)
    decreases |items|
  {
    var item := items[0];
    var p, t := UpToLastComma(item), AfterLastComma(item);
    assert "" + p == p;
    CombineTrims(item);
    if |items| == 1 {
      AtEnd("", item);
      ItemParts(item);
      assert TrimAll(items[1..]) == [];
    } else {
      OneItem("", item, Print(items[1..]));
      SeparableTail(item);
      TokensAreTrimmed(items[1..]);
    }
  }

  lemma {:induction false} CommaPrinted(items: seq<string>)
    requires items != []
    ensures COMMA in Print(items) <==> |items| > 1 || COMMA in items[0]
    ensures |items| == 1 && COMMA !in items[0] ==> Print(items) == items[0]
  {
    var item := items[0];
    if |items| == 1 {
      if COMMA in item {
        var j := Find(item);
        assert item == item[..j] + item[j..];
        EscapeSplits(item[..j], item[j..]);
        assert Escape(item[j..])[1] == COMMA;
        assert Escape(item)[j + 1] == COMMA;
      } else {
        EscapeSplits(item, "");
        assert item + "" == item;
      }
    } else {
      assert (Escape(item) + [COMMA])[|Escape(item)|] == COMMA;
    }
  }

  /**
   Printing a list and reading it back gives the list exactly when it is a single
   item without commas, or every item is non-empty and has no space at its ends
   and every item but the last ends neither in a comma nor in a backslash.
   */
  lemma RoundTrip(items: seq<string>)
    requires items != []
    ensures WithCsvSpec([Print(items)]) == items <==> (|items| == 1 && COMMA !in items[0]) || Printable(items)
  {
    CommaPrinted(items);
    ParsePrint(items);
    if |items| == 1 && COMMA !in items[0] { assert items == [items[0]]; }
  }
}
