/** Flat JSON headers as a run of quoted names and the text between them, and what the
    scanners of Header find in such a run. */
module Items {
  import opened Bytes
  import opened Header

  /** A quoted string and everything up to the next quotation mark. */
  datatype Item = Item(name: seq<byte>, gap: seq<byte>)

  function Render(items: seq<Item>): (s: seq<byte>)
  {
    if items == [] then []
    else [QUOTE] + items[0].name + [QUOTE] + (items[0].gap + Render(items[1..]))
  }

  predicate PlainItem(it: Item)
  {
    QUOTE !in it.name && QUOTE !in it.gap
    && it.gap != [] && (it.gap[0] == COLON || it.gap[0] == COMMA || it.gap[0] == CLOSE_BRACE)
  }

  predicate Plain(items: seq<Item>)
  {
    forall i | 0 <= i < |items| :: PlainItem(items[i])
  }

  /** A key the scanners are asked for. */
  predicate IsKey(key: seq<byte>)
  {
    QUOTE !in key && key != [] && key[0] != COLON && key[0] != COMMA && key[0] != CLOSE_BRACE
  }

  lemma {:induction false} SkipQuoteFree(a: seq<byte>, t: seq<byte>, key: seq<byte>)
    requires QUOTE !in a
    ensures FindVal(a + t, key) == FindVal(t, key)
  {
    if a == [] {
      assert a + t == t;
    } else {
      assert (a + t)[1..] == a[1..] + t;
      assert (a + t)[0] != QUOTE;
      SkipQuoteFree(a[1..], t, key);
    }
  }

  /** Text without quotation marks that is closed by one is determined by what it starts. */
  lemma {:induction false} ClosedPrefix(name: seq<byte>, key: seq<byte>, rest: seq<byte>)
    requires QUOTE !in name && QUOTE !in key
    ensures key + [QUOTE] <= name + [QUOTE] + rest <==> key == name
  {
    var k, s := key + [QUOTE], name + [QUOTE] + rest;
    if key == [] || name == [] {
      assert k[0] == (if key == [] then QUOTE else key[0]);
      assert s[0] == (if name == [] then QUOTE else name[0]);
    } else {
      ClosedPrefix(name[1..], key[1..], rest);
      assert k == [key[0]] + (key[1..] + [QUOTE]);
      assert s == [name[0]] + (name[1..] + [QUOTE] + rest);
      PrefixStep(key[0], key[1..] + [QUOTE], name[0], name[1..] + [QUOTE] + rest);
    }
  }

  lemma PrefixStep(a: byte, p: seq<byte>, b: byte, s: seq<byte>)
    ensures [a] + p <= [b] + s <==> a == b && p <= s
  {
    var x, y := [a] + p, [b] + s;
    assert x[1..] == p && y[1..] == s && x[0] == a && y[0] == b;
    if x <= y {
      assert x[1..] == y[..|x|][1..] == s[..|p|];
    }
    if a == b && p <= s {
      assert y[..|x|] == [b] + s[..|p|];
    }
  }

  lemma QuotedPrefix(name: seq<byte>, key: seq<byte>, rest: seq<byte>)
    requires QUOTE !in name && QUOTE !in key
    ensures [QUOTE] + key + [QUOTE] <= [QUOTE] + name + [QUOTE] + rest <==> key == name
  {
    ClosedPrefix(name, key, rest);
    PrefixStep(QUOTE, key + [QUOTE], QUOTE, name + [QUOTE] + rest);
    assert [QUOTE] + key + [QUOTE] == [QUOTE] + (key + [QUOTE]);
    assert [QUOTE] + name + [QUOTE] + rest == [QUOTE] + (name + [QUOTE] + rest);
  }

  lemma GapIsNoKey(gap: seq<byte>, key: seq<byte>, rest: seq<byte>)
    requires gap != [] && IsKey(key)
    requires gap[0] == COLON || gap[0] == COMMA || gap[0] == CLOSE_BRACE
    ensures !([QUOTE] + key + [QUOTE] <= [QUOTE] + (gap + rest))
  {
    assert ([QUOTE] + key + [QUOTE])[1] == key[0];
    assert ([QUOTE] + (gap + rest))[1] == gap[0];
  }

  /** One item: its value if its name is the key, else the search goes on behind it. */
  lemma FindValStep(it: Item, rest: seq<byte>, key: seq<byte>)
    requires PlainItem(it) && IsKey(key)
    ensures FindVal([QUOTE] + it.name + [QUOTE] + (it.gap + rest), key)
         == if it.name == key then Some(SkipSeps(it.gap + rest)) else FindVal(rest, key)
  {
    var s := [QUOTE] + it.name + [QUOTE] + (it.gap + rest);
    QuotedPrefix(it.name, key, it.gap + rest);
    if it.name == key {
      assert s[|key| + 2..] == it.gap + rest;
    } else {
      var tail := [QUOTE] + (it.gap + rest);
      assert s[1..] == it.name + tail;
      SkipQuoteFree(it.name, tail, key);
      GapIsNoKey(it.gap, key, rest);
      assert tail[1..] == it.gap + rest;
      SkipQuoteFree(it.gap, rest, key);
    }
  }

  /** The scanner finds the first item with the key's name, and nothing else. */
  lemma {:induction false} FindValItems(items: seq<Item>, key: seq<byte>, j: nat)
    requires Plain(items) && IsKey(key) && j <= |items|
    requires forall i | 0 <= i < j :: items[i].name != key
    requires j < |items| ==> items[j].name == key
    ensures FindVal(Render(items), key)
         == if j == |items| then None else Some(SkipSeps(items[j].gap + Render(items[j + 1..])))
    decreases j
  {
    if items != [] {
      assert PlainItem(items[0]);
      FindValStep(items[0], Render(items[1..]), key);
      if j > 0 {
        FindValItems(items[1..], key, j - 1);
        assert j < |items| ==> items[1..][j..] == items[j + 1..];
      }
    }
  }

  /** The gap behind the name of a numeric field. */
  function NumberGap(n: nat, tail: seq<byte>): (g: seq<byte>)
  {
    [COLON, SPACE] + Dec(n) + tail
  }

  lemma NumberGapReads(n: nat, tail: seq<byte>, rest: seq<byte>)
    requires tail != [] && !IsDigit(tail[0])
    ensures ReadInt(SkipSeps(NumberGap(n, tail) + rest)) == Some(n)
  {
    var v := Dec(n) + (tail + rest);
    var s := NumberGap(n, tail) + rest;
    assert s == [COLON, SPACE] + v;
    assert s[1..] == [SPACE] + v && s[1..][1..] == v;
    assert v[0] == Dec(n)[0] && !IsSep(v[0]);
    assert (tail + rest)[0] == tail[0];
    ReadIntDec(n, tail + rest);
    assert SkipSeps(s) == SkipSeps([SPACE] + v) == SkipSeps(v) == v;
  }

  /** find_int on a line of items: the number of the first field of that name ... */
  lemma {:induction false} FindIntField(items: seq<Item>, key: seq<byte>, j: nat, n: nat, tail: seq<byte>)
    requires Plain(items) && IsKey(key) && j < |items|
    requires forall i | 0 <= i < j :: items[i].name != key
    requires items[j] == Item(key, NumberGap(n, tail)) && tail != [] && !IsDigit(tail[0])
    ensures FindInt([OPEN_BRACE] + Render(items), key) == Some(n)
  {
    SkipQuoteFree([OPEN_BRACE], Render(items), key);
    FindValItems(items, key, j);
    NumberGapReads(n, tail, Render(items[j + 1..]));
  }

  /** ... or nothing. */
  lemma {:induction false} FindIntMissing(items: seq<Item>, key: seq<byte>)
    requires Plain(items) && IsKey(key)
    requires forall i | 0 <= i < |items| :: items[i].name != key
    ensures FindInt([OPEN_BRACE] + Render(items), key) == None
  {
    SkipQuoteFree([OPEN_BRACE], Render(items), key);
    FindValItems(items, key, |items|);
  }

  // ---- substrings ----

  lemma {:induction false} PrefixBeforeQuote(a: seq<byte>, b: seq<byte>, sub: seq<byte>)
    requires QUOTE !in sub
    ensures sub <= a + [QUOTE] + b <==> sub <= a
  {
    var s := a + [QUOTE] + b;
    if sub != [] {
      if a == [] {
        assert s[0] == QUOTE;
      } else {
        PrefixBeforeQuote(a[1..], b, sub[1..]);
        PrefixStep(sub[0], sub[1..], a[0], a[1..] + [QUOTE] + b);
        PrefixStep(sub[0], sub[1..], a[0], a[1..]);
        assert sub == [sub[0]] + sub[1..] && a == [a[0]] + a[1..];
        assert s == [a[0]] + (a[1..] + [QUOTE] + b);
      }
    }
  }

  lemma {:induction false} ContainsSplit(a: seq<byte>, b: seq<byte>, sub: seq<byte>)
    requires QUOTE !in sub && sub != []
    ensures Contains(a + [QUOTE] + b, sub) <==> Contains(a, sub) || Contains(b, sub)
  {
    var s := a + [QUOTE] + b;
    PrefixBeforeQuote(a, b, sub);
    if a == [] {
      assert s[1..] == b;
    } else {
      assert s[1..] == a[1..] + [QUOTE] + b;
      ContainsSplit(a[1..], b, sub);
    }
  }

  ghost predicate ItemContains(items: seq<Item>, sub: seq<byte>)
  {
    exists i :: 0 <= i < |items| && (Contains(items[i].name, sub) || Contains(items[i].gap, sub))
  }

  lemma ContainsStep(it: Item, more: seq<byte>, sub: seq<byte>)
    requires QUOTE !in sub && sub != []
    requires more == [] || more[0] == QUOTE
    ensures Contains([QUOTE] + it.name + [QUOTE] + (it.gap + more), sub)
       <==> Contains(it.name, sub) || Contains(it.gap, sub) || Contains(more, sub)
  {
    var tail := it.gap + more;
    assert [QUOTE] + it.name + [QUOTE] + tail == [] + [QUOTE] + (it.name + [QUOTE] + tail);
    ContainsSplit([], it.name + [QUOTE] + tail, sub);
    ContainsSplit(it.name, tail, sub);
    if more == [] {
      assert tail == it.gap;
    } else {
      assert tail == it.gap + [QUOTE] + more[1..];
      ContainsSplit(it.gap, more[1..], sub);
      assert more == [] + [QUOTE] + more[1..];
      ContainsSplit([], more[1..], sub);
    }
  }

  /** A quote-free substring of the line stands inside one name or one gap. */
  lemma {:induction false} ContainsItems(items: seq<Item>, sub: seq<byte>)
    requires QUOTE !in sub && sub != []
    ensures Contains(Render(items), sub) <==> ItemContains(items, sub)
  {
    if items != [] {
      var it, more := items[0], Render(items[1..]);
      ContainsItems(items[1..], sub);
      ContainsStep(it, more, sub);
      if ItemContains(items[1..], sub) {
        var i :| 0 <= i < |items[1..]| && (Contains(items[1..][i].name, sub) || Contains(items[1..][i].gap, sub));
        assert items[i + 1] == items[1..][i];
      }
      if ItemContains(items, sub) && !Contains(it.name, sub) && !Contains(it.gap, sub) {
        var i :| 0 <= i < |items| && (Contains(items[i].name, sub) || Contains(items[i].gap, sub));
        assert items[1..][i - 1] == items[i];
      }
    }
  }

  lemma ContainsBehindBrace(s: seq<byte>, sub: seq<byte>)
    requires sub != [] && sub[0] != OPEN_BRACE
    ensures Contains([OPEN_BRACE] + s, sub) <==> Contains(s, sub)
  {
    assert ([OPEN_BRACE] + s)[1..] == s;
  }

  lemma {:induction false} TooShort(s: seq<byte>, sub: seq<byte>)
    requires |s| < |sub|
    ensures !Contains(s, sub)
  {
    if s != [] {
      TooShort(s[1..], sub);
    }
  }

  lemma {:induction false} NoPrefix(s: seq<byte>, sub: seq<byte>, b: byte)
    requires b in sub && b !in s
    ensures !(sub <= s)
  {
    if s != [] && sub[0] != b {
      NoPrefix(s[1..], sub[1..], b);
      PrefixStep(sub[0], sub[1..], s[0], s[1..]);
      assert sub == [sub[0]] + sub[1..] && s == [s[0]] + s[1..];
    }
  }

  lemma {:induction false} LacksByte(s: seq<byte>, sub: seq<byte>, b: byte)
    requires b in sub && b !in s
    ensures !Contains(s, sub)
  {
    NoPrefix(s, sub, b);
    if s != [] {
      LacksByte(s[1..], sub, b);
    }
  }
}
