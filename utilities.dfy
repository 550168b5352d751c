/** Model of `src/ccxt_download/utilities.py`: the filename-safe escaping of
    symbols, the partition file name, the whole-day date range, and the file
    selection, loading and clean-up of `load_data`. */
module Utilities {
  import opened Wrappers
  import opened Strings
  import opened Calendar
  import opened Tables

  // ---------------------------------------------------------------------
  // Escaping (format_str / unformat_str)

  /** `STR_CONVERSIONS`, in its insertion order. */
  const StrConversions: seq<(string, string)> := [("/", "%2F"), (":", "%3A")]

  /** A dict kept as its items in insertion order: no key occurs twice. */
  predicate DistinctKeys(items: seq<(string, string)>)
  {
    forall i, j :: 0 <= i < j < |items| ==> items[i].0 != items[j].0
  }

  /** `d[k] = v` on a dict kept as its items in insertion order: an existing
      key keeps its place and takes the new value, a new key goes last. */
  function DictSet(items: seq<(string, string)>, k: string, v: string): seq<(string, string)>
    decreases |items|
  {
    if items == [] then [(k, v)]
    else if items[0].0 == k then [(k, v)] + items[1..]
    else [items[0]] + DictSet(items[1..], k, v)
  }

  lemma {:induction false} DictSetItems(items: seq<(string, string)>, k: string, v: string)
    requires DistinctKeys(items)
    ensures DistinctKeys(DictSet(items, k, v))
    ensures forall p :: p in DictSet(items, k, v) <==> p == (k, v) || (p.0 != k && p in items)
    decreases |items|
  {
    if items != [] && items[0].0 != k {
      DistinctKeysTail(items);
      DictSetItems(items[1..], k, v);
      DictSetPast(items, k, v);
    } else if items != [] {
      DictSetHit(items, k, v);
    }
  }

  lemma DistinctKeysTail(items: seq<(string, string)>)
    requires DistinctKeys(items) && items != []
    ensures DistinctKeys(items[1..])
    ensures forall p :: p in items[1..] ==> p.0 != items[0].0
  {
    var rest := items[1..];
    forall i, j | 0 <= i < j < |rest| ensures rest[i].0 != rest[j].0 {
      assert rest[i] == items[i + 1] && rest[j] == items[j + 1];
    }
    forall p | p in rest ensures p.0 != items[0].0 {
      var i :| 0 <= i < |rest| && rest[i] == p;
      assert items[i + 1] == p;
    }
  }

  /** The step of DictSetItems when the first key is not k. */
  lemma DictSetPast(items: seq<(string, string)>, k: string, v: string)
    requires items != [] && items[0].0 != k
    requires forall p :: p in items[1..] ==> p.0 != items[0].0
    requires DistinctKeys(DictSet(items[1..], k, v))
    requires forall p :: p in DictSet(items[1..], k, v) <==> p == (k, v) || (p.0 != k && p in items[1..])
    ensures DistinctKeys(DictSet(items, k, v))
    ensures forall p :: p in DictSet(items, k, v) <==> p == (k, v) || (p.0 != k && p in items)
  {
    var h, rest := items[0], items[1..];
    var t := DictSet(rest, k, v);
    assert DictSet(items, k, v) == [h] + t;
    assert items == [h] + rest;
    forall p | p in t ensures p.0 != h.0 {
      if p != (k, v) {
        assert p in rest;
      }
    }
    ConsDistinct(h, t);
  }

  /** A pair whose key is not among the keys of distinct items can go in front. */
  lemma ConsDistinct(h: (string, string), t: seq<(string, string)>)
    requires DistinctKeys(t) && forall p :: p in t ==> p.0 != h.0
    ensures DistinctKeys([h] + t)
  {
    var r := [h] + t;
    forall i, j | 0 <= i < j < |r| ensures r[i].0 != r[j].0 {
      assert r[j] == t[j - 1];
      if i == 0 {
        assert t[j - 1] in t;
      } else {
        assert r[i] == t[i - 1];
      }
    }
  }

  /** The step of DictSetItems when the first key is k: its value is replaced. */
  lemma DictSetHit(items: seq<(string, string)>, k: string, v: string)
    requires DistinctKeys(items) && items != [] && items[0].0 == k
    ensures DistinctKeys(DictSet(items, k, v))
    ensures forall p :: p in DictSet(items, k, v) <==> p == (k, v) || (p.0 != k && p in items)
  {
    var rest := items[1..];
    assert DictSet(items, k, v) == [(k, v)] + rest;
    assert items == [items[0]] + rest;
    DistinctKeysTail(items);
    ConsDistinct((k, v), rest);
  }

  lemma DictSetDistinct(items: seq<(string, string)>, k: string, v: string)
    requires DistinctKeys(items)
    ensures DistinctKeys(DictSet(items, k, v))
  {
    DictSetItems(items, k, v);
  }

  /** `{v: k for k, v in table.items()}`: each pair swapped and set in turn,
      so a value shared by several keys keeps its first place but ends up
      mapped to the last of them. */
  function Reversed(table: seq<(string, string)>): (r: seq<(string, string)>)
    ensures DistinctKeys(r)
    decreases |table|
  {
    if table == [] then []
    else
      var n := |table| - 1;
      var r := Reversed(table[..n]);
      DictSetDistinct(r, table[n].1, table[n].0);
      DictSet(r, table[n].1, table[n].0)
  }

  /** Pair i of the table is (k, v) for p == (v, k), and no later pair has
      the value v. */
  predicate LastWithValue(table: seq<(string, string)>, i: int, p: (string, string))
  {
    0 <= i < |table| && table[i] == (p.1, p.0)
    && forall j :: i < j < |table| ==> table[j].1 != p.0
  }

  lemma LastWithValueStep(table: seq<(string, string)>, i: int, p: (string, string))
    requires table != []
    ensures var n := |table| - 1;
      LastWithValue(table, i, p) <==>
        if p.0 == table[n].1 then i == n && table[n].0 == p.1
        else i < n && LastWithValue(table[..n], i, p)
  {
    var n := |table| - 1;
    if p.0 != table[n].1 && i < n && LastWithValue(table[..n], i, p) {
      forall j | i < j < |table| ensures table[j].1 != p.0 {
        if j < n {
          assert table[j] == table[..n][j];
        }
      }
    }
    if LastWithValue(table, i, p) && i < n {
      assert table[..n][i] == table[i];
      forall j | i < j < n ensures table[..n][j].1 != p.0 {
        assert table[..n][j] == table[j];
      }
    }
  }

  /** The reversed dict maps v to k exactly when (k, v) is a pair of the table
      and no later pair has the value v. */
  lemma {:induction false} ReversedItems(table: seq<(string, string)>, p: (string, string))
    ensures p in Reversed(table) <==> exists i :: LastWithValue(table, i, p)
    decreases |table|
  {
    if table != [] {
      var n := |table| - 1;
      var prefix := table[..n];
      ReversedItems(prefix, p);
      DictSetItems(Reversed(prefix), table[n].1, table[n].0);
      if p in Reversed(table) {
        if p.0 == table[n].1 {
          LastWithValueStep(table, n, p);
        } else {
          var i :| LastWithValue(prefix, i, p);
          LastWithValueStep(table, i, p);
        }
      }
      if i :| LastWithValue(table, i, p) {
        LastWithValueStep(table, i, p);
      }
    }
  }

  /** With no value repeated, the reversed dict is the table with each pair
      swapped, in the same order. */
  lemma {:induction false} ReversedOfDistinct(table: seq<(string, string)>)
    requires forall i, j :: 0 <= i < j < |table| ==> table[i].1 != table[j].1
    ensures |Reversed(table)| == |table|
    ensures forall i :: 0 <= i < |table| ==> Reversed(table)[i] == (table[i].1, table[i].0)
    decreases |table|
  {
    if table != [] {
      var n := |table| - 1;
      var prefix := table[..n];
      forall i, j | 0 <= i < j < |prefix| ensures prefix[i].1 != prefix[j].1 {
        assert prefix[i] == table[i] && prefix[j] == table[j];
      }
      ReversedOfDistinct(prefix);
      forall i | 0 <= i < n ensures Reversed(prefix)[i] == (table[i].1, table[i].0) {
        assert prefix[i] == table[i];
      }
      assert forall i :: 0 <= i < n ==> table[i].1 != table[n].1;
      ReversedSnoc(table);
    }
  }

  /** The step of ReversedOfDistinct: a last pair whose value is new is swapped
      and appended. */
  lemma ReversedSnoc(table: seq<(string, string)>)
    requires table != []
    requires var n := |table| - 1; var r := Reversed(table[..n]);
      && |r| == n
      && (forall i :: 0 <= i < n ==> r[i] == (table[i].1, table[i].0))
      && (forall i :: 0 <= i < n ==> table[i].1 != table[n].1)
    ensures |Reversed(table)| == |table|
    ensures forall i :: 0 <= i < |table| ==> Reversed(table)[i] == (table[i].1, table[i].0)
  {
    var n := |table| - 1;
    var r := Reversed(table[..n]);
    var last := (table[n].1, table[n].0);
    assert Reversed(table) == DictSet(r, last.0, last.1);
    DictSetAppend(r, last.0, last.1);
    forall i | 0 <= i < |table| ensures Reversed(table)[i] == (table[i].1, table[i].0) {
      if i < n {
        assert (r + [last])[i] == r[i];
      }
    }
  }

  lemma {:induction false} DictSetAppend(items: seq<(string, string)>, k: string, v: string)
    requires forall i :: 0 <= i < |items| ==> items[i].0 != k
    ensures DictSet(items, k, v) == items + [(k, v)]
    decreases |items|
  {
    if items != [] {
      DictSetAppend(items[1..], k, v);
      assert items == [items[0]] + items[1..];
    }
  }

  /** The reversed conversions: "%2F" back to "/", then "%3A" back to ":". */
  lemma ReversedConversions()
    ensures Reversed(StrConversions) == [("%2F", "/"), ("%3A", ":")]
  {
    var t := StrConversions;
    ReversedOfDistinct(t);
  }

  predicate NonEmptyPatterns(table: seq<(string, string)>)
  {
    forall i :: 0 <= i < |table| ==> |table[i].0| > 0
  }

  /** `for c, sub in table: s = s.replace(c, sub)`. */
  function ReplaceEach(s: string, table: seq<(string, string)>): string
    requires NonEmptyPatterns(table)
    decreases |table|
  {
    if table == [] then s
    else
      var n := |table| - 1;
      Replace(ReplaceEach(s, table[..n]), table[n].0, table[n].1)
  }

  function EscapeChar(c: char): string
  {
    if c == '/' then "%2F" else if c == ':' then "%3A" else [c]
  }

  /** The escaping one character at a time: every "/" becomes "%2F" and every
      ":" becomes "%3A"; no "/" or ":" is left. */
  function Escape(s: string): string
  {
    if s == [] then [] else EscapeChar(s[0]) + Escape(s[1..])
  }

  /** No "/" or ":" survives the escape, and it adds no ".". */
  lemma {:induction false} EscapeSafe(s: string)
    ensures '/' !in Escape(s) && ':' !in Escape(s)
    ensures '.' !in s ==> '.' !in Escape(s)
    decreases |s|
  {
    if s != [] {
      EscapeSafe(s[1..]);
      assert Escape(s) == EscapeChar(s[0]) + Escape(s[1..]);
    }
  }

  lemma {:induction false} EscapeConcat(a: string, b: string)
    ensures Escape(a + b) == Escape(a) + Escape(b)
    decreases |a|
  {
    if a != [] {
      assert (a + b)[1..] == a[1..] + b;
      EscapeConcat(a[1..], b);
    } else {
      assert a + b == b;
    }
  }

  /** A string without "/" and ":" is its own escape. */
  lemma {:induction false} EscapeIdentity(s: string)
    requires '/' !in s && ':' !in s
    ensures Escape(s) == s
    decreases |s|
  {
    if s != [] {
      EscapeIdentity(s[1..]);
      assert s == [s[0]] + s[1..];
    }
  }

  /** w has none of the characters the escape introduces. */
  predicate AvoidsEscapes(w: string)
  {
    '%' !in w && '2' !in w && 'F' !in w && '3' !in w && 'A' !in w
  }

  /** A string avoiding the escape characters that starts the escape of t
      also starts t. */
  lemma {:induction false} EscapePrefix(t: string, w: string)
    requires AvoidsEscapes(w)
    requires |w| <= |Escape(t)| && Escape(t)[..|w|] == w
    ensures |w| <= |t| && t[..|w|] == w
    decreases |t|
  {
    if w != [] {
      var e := Escape(t);
      assert e == EscapeChar(t[0]) + Escape(t[1..]);
      assert e[..|w|][0] == w[0];
      assert e[1..] == Escape(t[1..]);
      assert e[1..][..|w| - 1] == w[1..];
      EscapePrefix(t[1..], w[1..]);
      assert t[..|w|] == [t[0]] + t[1..][..|w| - 1];
    }
  }

  /** The escape creates no occurrence of a string avoiding the escape
      characters: every one it holds was in the string already. */
  lemma {:induction false} EscapeMatchIsOriginal(s: string, w: string)
    requires |w| > 0 && AvoidsEscapes(w)
    ensures Contains(Escape(s), w) ==> Contains(s, w)
    decreases |s|
  {
    if s != [] && Contains(Escape(s), w) {
      var e := Escape(s);
      var head := EscapeChar(s[0]);
      assert e == head + Escape(s[1..]);
      EscapeMatchIsOriginal(s[1..], w);
      if s[0] == '/' || s[0] == ':' {
        ContainsPastPrefix(head, Escape(s[1..]), w);
      } else if e[..|w|] == w {
        EscapePrefix(s, w);
      } else {
        assert e[1..] == Escape(s[1..]);
      }
    }
  }

  /** The extension ".csv.gz" passes through the escape. */
  lemma EscapeExtension()
    ensures Escape(".csv.gz") == ".csv.gz"
  {
    EscapeIdentity(".csv.gz");
  }

  /** The two `replace` passes of `format_str` compute the character-wise escape. */
  lemma {:induction false} EscapeByTwoPasses(s: string)
    ensures Replace(Replace(s, "/", "%2F"), ":", "%3A") == Escape(s)
    decreases |s|
  {
    if s == [] {
    } else {
      var c, t := s[0], s[1..];
      assert s == [c] + t;
      EscapeByTwoPasses(t);
      var inner := Replace(t, "/", "%2F");
      if c == '/' {
        ReplaceHead("/", t, "%2F");
        ReplaceCharConcat("%2F", inner, ':', "%3A");
        ReplaceCharAbsent("%2F", ':', "%3A");
      } else {
        ReplaceCons(c, t, "/", "%2F");
        if c == ':' {
          ReplaceHead(":", inner, "%3A");
        } else {
          ReplaceCons(c, inner, ":", "%3A");
        }
      }
    }
  }

  lemma EscapeByTable(s: string)
    ensures ReplaceEach(s, StrConversions) == Escape(s)
  {
    var t := StrConversions;
    assert t[..1][..0] == [] && t[..1][0] == ("/", "%2F");
    assert ReplaceEach(s, t[..1]) == Replace(s, "/", "%2F");
    assert t[..|t| - 1] == t[..1];
    EscapeByTwoPasses(s);
  }

  /** `format_str`: apply each conversion of the table in turn. */
  method FormatStr(s0: string) returns (s: string)
    ensures s == Escape(s0)
    ensures '/' !in s && ':' !in s
  {
    s := s0;
    for i := 0 to |StrConversions|
      invariant s == ReplaceEach(s0, StrConversions[..i])
    {
      assert StrConversions[..i + 1][..i] == StrConversions[..i];
      s := Replace(s, StrConversions[i].0, StrConversions[i].1);
    }
    assert StrConversions[..|StrConversions|] == StrConversions;
    EscapeByTable(s0);
    EscapeSafe(s0);
  }

  /** What `unformat_str` computes: the reversed table applied in order. */
  function Unescape(s: string): string
  {
    ReversedConversions();
    ReplaceEach(s, Reversed(StrConversions))
  }

  lemma UnescapeByTwoPasses(s: string)
    ensures Unescape(s) == Replace(Replace(s, "%2F", "/"), "%3A", ":")
  {
    var t := Reversed(StrConversions);
    ReversedConversions();
    assert t[..1][..0] == [] && t[..1][0] == ("%2F", "/");
    assert ReplaceEach(s, t[..1]) == Replace(s, "%2F", "/");
    assert t[..|t| - 1] == t[..1];
  }

  /** `unformat_str`: apply each conversion of the reversed table in turn. It
      undoes `format_str` on every string without "%". */
  method UnformatStr(s0: string) returns (s: string)
    ensures s == Unescape(s0)
    ensures forall x :: s0 == Escape(x) && '%' !in x ==> s == x
  {
    var reversedMap := Reversed(StrConversions);
    ReversedConversions();
    s := s0;
    for i := 0 to |reversedMap|
      invariant s == ReplaceEach(s0, reversedMap[..i])
    {
      assert reversedMap[..i + 1][..i] == reversedMap[..i];
      s := Replace(s, reversedMap[i].0, reversedMap[i].1);
    }
    assert reversedMap[..|reversedMap|] == reversedMap;
    forall x | s0 == Escape(x) && '%' !in x ensures s == x {
      UnescapeEscape(x);
    }
  }

  /** Only the ":" conversion applied. */
  function EscapeColon(s: string): string
  {
    if s == [] then [] else (if s[0] == ':' then "%3A" else [s[0]]) + EscapeColon(s[1..])
  }

  lemma ReplaceAfterColonEscape(e: string)
    ensures Replace("%3A" + e, "%2F", "/") == "%3A" + Replace(e, "%2F", "/")
  {
    var s := "%3A" + e;
    assert s[..3] == "%3A";
    assert "%3A"[1] != "%2F"[1];
    assert s[1..] == ['3'] + (['A'] + e);
    ReplaceCons('3', ['A'] + e, "%2F", "/");
    ReplaceCons('A', e, "%2F", "/");
  }

  lemma {:induction false} UndoSlash(x: string)
    requires '%' !in x
    ensures Replace(Escape(x), "%2F", "/") == EscapeColon(x)
    decreases |x|
  {
    if x != [] {
      var c, t := x[0], x[1..];
      UndoSlash(t);
      assert Escape(x) == EscapeChar(c) + Escape(t);
      if c == '/' {
        ReplaceHead("%2F", Escape(t), "/");
      } else if c == ':' {
        ReplaceAfterColonEscape(Escape(t));
      } else {
        ReplaceCons(c, Escape(t), "%2F", "/");
      }
    }
  }

  lemma {:induction false} UndoColon(x: string)
    requires '%' !in x
    ensures Replace(EscapeColon(x), "%3A", ":") == x
    decreases |x|
  {
    if x != [] {
      var c, t := x[0], x[1..];
      UndoColon(t);
      assert x == [c] + t;
      if c == ':' {
        ReplaceHead("%3A", EscapeColon(t), ":");
      } else {
        ReplaceCons(c, EscapeColon(t), "%3A", ":");
      }
    }
  }

  /** `unformat_str(format_str(x)) == x` for every x without "%". */
  lemma UnescapeEscape(x: string)
    requires '%' !in x
    ensures Unescape(Escape(x)) == x
  {
    UnescapeByTwoPasses(Escape(x));
    UndoSlash(x);
    UndoColon(x);
  }

  /** With a "%" in the input the round trip fails: "%2F" is left alone by
      `format_str` and then turned into "/" by `unformat_str`. */
  lemma UnescapeNotInverseOnPercent()
    ensures Escape("%2F") == "%2F"
    ensures Unescape(Escape("%2F")) == "/"
  {
    EscapeIdentity("%2F");
    UnescapeByTwoPasses("%2F");
    ReplaceHead("%2F", "", "/");
    assert "%2F" + "" == "%2F";
    ReplaceCharAbsent("/", ':', ":");
    ReplaceAbsent("/", "%3A", ":");
  }

  // ---------------------------------------------------------------------
  // filename_builder

  /** The `start_dt` argument: a datetime (an instant, formatted as a date)
      or a string (used verbatim, such as the wildcard "*"). */
  datatype StartArg = At(instant: int) | Verbatim(text: string)

  function StartLabel(start: StartArg): string
  {
    match start
    case At(t) => DateLabel(t)
    case Verbatim(text) => text
  }

  /** `f"{data_type_id}_" if data_type_id else ""`. */
  function TypeIdPrefix(dataTypeId: Option<string>): string
  {
    if dataTypeId.Some? && dataTypeId.value != "" then dataTypeId.value + "_" else ""
  }

  /** `f"{exchange.lower()}_{dtid}{data_type}"`, the part of the name shared by
      every partition of one feed. */
  function NameHead(exchange: string, dataType: string, dataTypeId: Option<string>): string
  {
    Lower(exchange) + "_" + TypeIdPrefix(dataTypeId) + dataType
  }

  /** The file name before escaping. */
  function RawName(exchange: string, start: StartArg, symbol: string, dataType: string,
                   dataTypeId: Option<string>): string
  {
    NameHead(exchange, dataType, dataTypeId) + "_" + StartLabel(start) + "_" + symbol + ".csv.gz"
  }

  /** `os.path.join(directory, name)` on POSIX. */
  function PathJoin(directory: string, name: string): string
  {
    if |name| > 0 && name[0] == '/' then name
    else if directory == [] || directory[|directory| - 1] == '/' then directory + name
    else directory + "/" + name
  }

  /** `filename_builder(exchange, start_dt, download_dir, symbol, data_type, data_type_id)`. */
  function FileName(exchange: string, start: StartArg, directory: string, symbol: string,
                    dataType: string, dataTypeId: Option<string>): string
  {
    PathJoin(directory, Escape(RawName(exchange, start, symbol, dataType, dataTypeId)))
  }

  /** The directory part `os.path.join` puts in front of a relative name. */
  function DirPrefix(directory: string): string
  {
    if directory == [] || directory[|directory| - 1] == '/' then directory else directory + "/"
  }

  lemma FlatName(directory: string, body: string)
    ensures var name := Escape(body + ".csv.gz");
      && PathJoin(directory, name) == DirPrefix(directory) + name
      && '/' !in name && ':' !in name
      && |name| >= 7 && name[|name| - 7..] == ".csv.gz"
  {
    EscapeConcat(body, ".csv.gz");
    EscapeExtension();
    var name := Escape(body + ".csv.gz");
    assert name == Escape(body) + ".csv.gz";
    EscapeSafe(body + ".csv.gz");
    if |name| > 0 {
      assert name[0] in name;
    }
  }

  /** The path is the directory plus one flat file name: the escaped name has
      no "/" or ":", ends in ".csv.gz", and decodes back to the raw name when
      that has no "%". */
  lemma FileNameLayout(exchange: string, start: StartArg, directory: string, symbol: string,
                       dataType: string, dataTypeId: Option<string>)
    ensures var raw := RawName(exchange, start, symbol, dataType, dataTypeId);
      var name := Escape(raw);
      && FileName(exchange, start, directory, symbol, dataType, dataTypeId)
         == DirPrefix(directory) + name
      && '/' !in name && ':' !in name
      && |name| >= 7 && name[|name| - 7..] == ".csv.gz"
      && ('%' !in raw ==> Unescape(name) == raw)
  {
    var raw := RawName(exchange, start, symbol, dataType, dataTypeId);
    var body := NameHead(exchange, dataType, dataTypeId) + "_" + StartLabel(start) + "_" + symbol;
    assert raw == body + ".csv.gz";
    FlatName(directory, body);
    if '%' !in raw {
      UnescapeEscape(raw);
    }
  }

  lemma EscapeNameParts(head: string, text: string, symbol: string)
    requires '/' !in text && ':' !in text
    ensures Escape(head + "_" + text + "_" + symbol + ".csv.gz")
      == Escape(head) + "_" + text + "_" + Escape(symbol) + ".csv.gz"
  {
    var p1 := head + "_";
    var p2 := p1 + text;
    var p3 := p2 + "_";
    var p4 := p3 + symbol;
    EscapeIdentity("_");
    EscapeExtension();
    EscapeIdentity(text);
    EscapeConcat(head, "_");
    assert Escape(p1) == Escape(head) + "_";
    EscapeConcat(p1, text);
    assert Escape(p2) == Escape(head) + "_" + text;
    EscapeConcat(p2, "_");
    assert Escape(p3) == Escape(head) + "_" + text + "_";
    EscapeConcat(p3, symbol);
    assert Escape(p4) == Escape(head) + "_" + text + "_" + Escape(symbol);
    EscapeConcat(p4, ".csv.gz");
  }

  lemma DateLabelIsSafe(t: int)
    ensures '/' !in DateLabel(t) && ':' !in DateLabel(t) && '.' !in DateLabel(t)
  {
    DateLabelChars(t);
  }

  /** Each part of the name is escaped on its own; a date label and the
      wildcard "*" pass through unchanged. */
  lemma FileNameParts(exchange: string, start: StartArg, symbol: string, dataType: string,
                      dataTypeId: Option<string>)
    requires start.Verbatim? ==> '/' !in start.text && ':' !in start.text
    ensures Escape(RawName(exchange, start, symbol, dataType, dataTypeId))
      == Escape(NameHead(exchange, dataType, dataTypeId)) + "_" + StartLabel(start) + "_"
         + Escape(symbol) + ".csv.gz"
  {
    if start.At? {
      DateLabelIsSafe(start.instant);
    }
    EscapeNameParts(NameHead(exchange, dataType, dataTypeId), StartLabel(start), symbol);
  }

  // ---------------------------------------------------------------------
  // generate_date_range

  /** The date labels of the whole days from start up to (not including) end. */
  function DateRange(startDt: int, endDt: int): seq<string>
  {
    DaySteps(DateLabel, startDt, endDt)
  }

  /** The range has one label per whole day, ceil((end - start) / 1 day) in
      all (none when start >= end); the k-th is the label of start + k days,
      which lies before end. */
  lemma DateRangeAt(startDt: int, endDt: int, k: nat)
    requires k < DayCount(startDt, endDt)
    ensures |DateRange(startDt, endDt)| == DayCount(startDt, endDt)
    ensures startDt + k * DayMs < endDt
    ensures DateRange(startDt, endDt)[k] == DateLabel(startDt + k * DayMs)
  {
    DayStepsAt(DateLabel, startDt, endDt, k);
  }

  /** `generate_date_range`: step one day at a time while before end, adding
      the `strftime("%Y-%m-%d")` label of each day. */
  method GenerateDateRange(startDt: int, endDt: int) returns (dateRange: seq<string>)
    ensures dateRange == DateRange(startDt, endDt)
  {
    dateRange := StepDays(DateLabel, startDt, endDt);
  }

  /** The loop of `generate_date_range`, for any per-day label f. */
  method StepDays<T>(f: int -> T, startDt: int, endDt: int) returns (steps: seq<T>)
    ensures steps == DaySteps(f, startDt, endDt)
  {
    steps := [];
    var current := startDt;
    while current < endDt
      invariant steps + DaySteps(f, current, endDt) == DaySteps(f, startDt, endDt)
      decreases endDt - current
    {
      ConcatAssoc(steps, [f(current)], DaySteps(f, current + DayMs, endDt));
      steps := steps + [f(current)];
      current := current + DayMs;
    }
  }

  // ---------------------------------------------------------------------
  // load_data: the inner filter

  function Repeat(f: string, n: nat): (r: seq<string>)
    ensures |r| == n && forall i :: 0 <= i < n ==> r[i] == f
  {
    seq(n, _ => f)
  }

  /** How many of the match strings occur in f (counted with repetition). */
  function MatchCount(f: string, matchStrs: seq<string>): nat
  {
    if matchStrs == [] then 0
    else
      var n := |matchStrs| - 1;
      MatchCount(f, matchStrs[..n]) + (if Contains(f, matchStrs[n]) then 1 else 0)
  }

  /** The output of `filter`: each file, in order, once per match string it contains. */
  function Filtered(files: seq<string>, matchStrs: seq<string>): seq<string>
  {
    if files == [] then []
    else
      var n := |files| - 1;
      Filtered(files[..n], matchStrs) + Repeat(files[n], MatchCount(files[n], matchStrs))
  }

  /** `filter(unfiltered_files, match_strs)`; the `continue` does not leave the
      inner loop, so a file is appended once for every match string in it. */
  method FilterFiles(unfilteredFiles: seq<string>, matchStrs: seq<string>)
    returns (filteredFiles: seq<string>)
    ensures filteredFiles == Filtered(unfilteredFiles, matchStrs)
  {
    filteredFiles := [];
    for i := 0 to |unfilteredFiles|
      invariant filteredFiles == Filtered(unfilteredFiles[..i], matchStrs)
    {
      var filepath := unfilteredFiles[i];
      for j := 0 to |matchStrs|
        invariant filteredFiles == Filtered(unfilteredFiles[..i], matchStrs)
          + Repeat(filepath, MatchCount(filepath, matchStrs[..j]))
      {
        assert matchStrs[..j + 1][..j] == matchStrs[..j];
        if Contains(filepath, matchStrs[j]) {
          assert Repeat(filepath, MatchCount(filepath, matchStrs[..j])) + [filepath]
            == Repeat(filepath, MatchCount(filepath, matchStrs[..j]) + 1);
          filteredFiles := filteredFiles + [filepath];
        }
      }
      assert matchStrs[..|matchStrs|] == matchStrs;
      assert unfilteredFiles[..i + 1][..i] == unfilteredFiles[..i];
    }
    assert unfilteredFiles[..|unfilteredFiles|] == unfilteredFiles;
  }

  lemma {:induction false} MatchCountPositive(f: string, matchStrs: seq<string>)
    ensures MatchCount(f, matchStrs) > 0 <==> exists m :: m in matchStrs && Contains(f, m)
  {
    if matchStrs != [] {
      var n := |matchStrs| - 1;
      var init, last := matchStrs[..n], matchStrs[n];
      MatchCountPositive(f, init);
      assert matchStrs == init + [last];
      if Contains(f, last) {
        assert last in matchStrs;
      } else if MatchCount(f, init) > 0 {
        var m :| m in init && Contains(f, m);
        assert m in matchStrs;
      } else {
        forall m | m in matchStrs ensures !Contains(f, m) {
          if m != last {
            assert m in init;
          }
        }
      }
    }
  }

  /** A file is in the output exactly when it is in the input and contains at
      least one of the match strings. */
  lemma {:induction false} FilteredMembership(files: seq<string>, matchStrs: seq<string>, f: string)
    ensures f in Filtered(files, matchStrs) <==>
      f in files && exists m :: m in matchStrs && Contains(f, m)
  {
    if files != [] {
      var n := |files| - 1;
      FilteredMembership(files[..n], matchStrs, f);
      MatchCountPositive(f, matchStrs);
      assert files == files[..n] + [files[n]];
      var tail := Repeat(files[n], MatchCount(files[n], matchStrs));
      if f == files[n] && MatchCount(f, matchStrs) > 0 {
        assert tail[0] == f;
      }
    }
  }

  lemma {:induction false} RepeatMultiplicity(g: string, n: nat, f: string)
    ensures multiset(Repeat(g, n))[f] == if g == f then n else 0
  {
    if n > 0 {
      RepeatMultiplicity(g, n - 1, f);
      assert Repeat(g, n) == Repeat(g, n - 1) + [g];
    } else {
      assert Repeat(g, n) == [];
    }
  }

  lemma MulSucc(a: int, k: int)
    ensures (a + 1) * k == a * k + k
  {
  }

  /** Each file appears in the output as many times as it appears in the
      input, times the number of match strings it contains. */
  lemma {:induction false} FilteredMultiplicity(files: seq<string>, matchStrs: seq<string>, f: string)
    ensures multiset(Filtered(files, matchStrs))[f] == multiset(files)[f] * MatchCount(f, matchStrs)
  {
    if files != [] {
      var n := |files| - 1;
      var k := MatchCount(f, matchStrs);
      FilteredMultiplicity(files[..n], matchStrs, f);
      FilteredLastCount(files, matchStrs, f);
      if files[n] == f {
        MulSucc(multiset(files[..n])[f], k);
      }
    }
  }

  /** How the last file adds to the counts of f in the input and the output. */
  lemma FilteredLastCount(files: seq<string>, matchStrs: seq<string>, f: string)
    requires files != []
    ensures var n := |files| - 1;
      && multiset(files)[f] == multiset(files[..n])[f] + (if files[n] == f then 1 else 0)
      && multiset(Filtered(files, matchStrs))[f]
         == multiset(Filtered(files[..n], matchStrs))[f] + (if files[n] == f then MatchCount(f, matchStrs) else 0)
  {
    var n := |files| - 1;
    var init, last := files[..n], files[n];
    var tail := Repeat(last, MatchCount(last, matchStrs));
    RepeatMultiplicity(last, MatchCount(last, matchStrs), f);
    assert files == init + [last];
    assert Filtered(files, matchStrs) == Filtered(init, matchStrs) + tail;
  }

  /** The filter keeps the input order: it works file by file. */
  lemma {:induction false} FilteredConcat(a: seq<string>, b: seq<string>, matchStrs: seq<string>)
    ensures Filtered(a + b, matchStrs) == Filtered(a, matchStrs) + Filtered(b, matchStrs)
    decreases |b|
  {
    if b == [] {
      assert a + b == a;
    } else {
      var n := |b| - 1;
      FilteredConcat(a, b[..n], matchStrs);
      assert (a + b)[..|a + b| - 1] == a + b[..n];
      assert (a + b)[|a + b| - 1] == b[n];
      var tail := Repeat(b[n], MatchCount(b[n], matchStrs));
      assert Filtered(a + b, matchStrs) == Filtered(a + b[..n], matchStrs) + tail;
      assert Filtered(b, matchStrs) == Filtered(b[..n], matchStrs) + tail;
      ConcatAssoc(Filtered(a, matchStrs), Filtered(b[..n], matchStrs), tail);
    }
  }

  // ---------------------------------------------------------------------
  // load_data: candidate paths

  /** The arguments `load_data` passes to every `filename_builder` call. */
  datatype Query = Query(exchange: string, dataType: string, directory: string,
                         dataTypeId: Option<string>)

  function QueryName(q: Query, start: string, symbol: string): string
  {
    FileName(q.exchange, Verbatim(start), q.directory, symbol, q.dataType, q.dataTypeId)
  }

  /** The name builder of a query, as a function of (date, symbol). */
  function NameBuilder(q: Query): (string, string) -> string
  {
    (date, symbol) => QueryName(q, date, symbol)
  }

  /** The name builder of a query with the date "*", as a function of the symbol. */
  function WildcardName(q: Query): string -> string
  {
    symbol => QueryName(q, "*", symbol)
  }

  /** One name per symbol, for one date. */
  function RowNames(nameOf: (string, string) -> string, date: string, symbols: seq<string>): (r: seq<string>)
    ensures |r| == |symbols|
  {
    if symbols == [] then []
    else
      var n := |symbols| - 1;
      RowNames(nameOf, date, symbols[..n]) + [nameOf(date, symbols[n])]
  }

  /** One name per (date, symbol), date-major. */
  function CrossNames(nameOf: (string, string) -> string, dates: seq<string>, symbols: seq<string>): seq<string>
  {
    if dates == [] then []
    else
      var n := |dates| - 1;
      CrossNames(nameOf, dates[..n], symbols) + RowNames(nameOf, dates[n], symbols)
  }

  /** The nested loops over `date_range` and `symbols`, with the name builder
      of the query (every argument but the date and the symbol fixed). */
  method CrossProduct(nameOf: (string, string) -> string, dateRange: seq<string>, symbols: seq<string>)
    returns (files: seq<string>)
    ensures files == CrossNames(nameOf, dateRange, symbols)
  {
    files := [];
    for i := 0 to |dateRange|
      invariant files == CrossNames(nameOf, dateRange[..i], symbols)
    {
      var date := dateRange[i];
      ghost var done := files;
      for j := 0 to |symbols|
        invariant files == done + RowNames(nameOf, date, symbols[..j])
      {
        RowNamesSnoc(nameOf, date, symbols, j);
        files := files + [nameOf(date, symbols[j])];
      }
      assert symbols[..|symbols|] == symbols;
      CrossNamesSnoc(nameOf, dateRange, symbols, i);
    }
    assert dateRange[..|dateRange|] == dateRange;
  }

  lemma RowNamesSnoc(nameOf: (string, string) -> string, date: string, symbols: seq<string>, j: nat)
    requires j < |symbols|
    ensures RowNames(nameOf, date, symbols[..j + 1])
         == RowNames(nameOf, date, symbols[..j]) + [nameOf(date, symbols[j])]
  {
    assert symbols[..j + 1][..j] == symbols[..j];
  }

  lemma CrossNamesSnoc(nameOf: (string, string) -> string, dates: seq<string>, symbols: seq<string>, i: nat)
    requires i < |dates|
    ensures CrossNames(nameOf, dates[..i + 1], symbols)
         == CrossNames(nameOf, dates[..i], symbols) + RowNames(nameOf, dates[i], symbols)
  {
    assert dates[..i + 1][..i] == dates[..i];
  }

  lemma {:induction false} RowNamesAt(nameOf: (string, string) -> string, date: string, symbols: seq<string>, j: nat)
    requires j < |symbols|
    ensures RowNames(nameOf, date, symbols)[j] == nameOf(date, symbols[j])
  {
    var n := |symbols| - 1;
    if j < n {
      RowNamesAt(nameOf, date, symbols[..n], j);
    }
  }

  lemma {:induction false} CrossNamesLength(nameOf: (string, string) -> string, dates: seq<string>, symbols: seq<string>)
    ensures |CrossNames(nameOf, dates, symbols)| == |dates| * |symbols|
  {
    if dates != [] {
      var n := |dates| - 1;
      CrossNamesLength(nameOf, dates[..n], symbols);
      MulSucc(n, |symbols|);
    }
  }

  /** The index arithmetic of a date-major cross product with m symbols. */
  lemma CrossIndex(i: int, j: int, n: int, m: int)
    requires 0 <= i < n && 0 <= j < m
    ensures i * m + j < n * m
  {
    MulSucc(i, m);
    MulMonotone(i + 1, n, m);
  }

  lemma {:induction false} MulMonotone(a: nat, b: nat, m: nat)
    requires a <= b
    ensures a * m <= b * m
    decreases b - a
  {
    if a < b {
      MulMonotone(a + 1, b, m);
      assert (a + 1) * m == a * m + m;
    }
  }

  /** The names of the last date come after all earlier rows. */
  lemma CrossNamesLastRow(nameOf: (string, string) -> string, dates: seq<string>,
                          symbols: seq<string>, j: nat)
    requires 0 < |dates| && j < |symbols|
    ensures var front := CrossNames(nameOf, dates[..|dates| - 1], symbols);
      && |front| + j < |CrossNames(nameOf, dates, symbols)|
      && CrossNames(nameOf, dates, symbols)[|front| + j] == nameOf(dates[|dates| - 1], symbols[j])
  {
    var n := |dates| - 1;
    var front := CrossNames(nameOf, dates[..n], symbols);
    assert CrossNames(nameOf, dates, symbols) == front + RowNames(nameOf, dates[n], symbols);
    RowNamesAt(nameOf, dates[n], symbols, j);
  }

  /** The names of date i start right after the rows of the dates before it. */
  lemma {:induction false} CrossNamesAtOffset(nameOf: (string, string) -> string, dates: seq<string>,
                                             symbols: seq<string>, i: nat, j: nat)
    requires i < |dates| && j < |symbols|
    ensures |CrossNames(nameOf, dates[..i], symbols)| + j < |CrossNames(nameOf, dates, symbols)|
    ensures CrossNames(nameOf, dates, symbols)[|CrossNames(nameOf, dates[..i], symbols)| + j]
         == nameOf(dates[i], symbols[j])
  {
    var n := |dates| - 1;
    var init := dates[..n];
    if i == n {
      CrossNamesLastRow(nameOf, dates, symbols, j);
    } else {
      var r := CrossNames(nameOf, dates, symbols);
      var front := CrossNames(nameOf, init, symbols);
      assert r == front + RowNames(nameOf, dates[n], symbols);
      assert init[..i] == dates[..i];
      CrossNamesAtOffset(nameOf, init, symbols, i, j);
      var k := |CrossNames(nameOf, dates[..i], symbols)| + j;
      assert k < |front| && r[k] == front[k];
      assert init[i] == dates[i];
    }
  }

  /** The name for date i and symbol j is at position i * |symbols| + j of
      the |dates| * |symbols| candidates. */
  lemma CrossNamesAt(nameOf: (string, string) -> string, dates: seq<string>,
                     symbols: seq<string>, i: nat, j: nat)
    requires i < |dates| && j < |symbols|
    ensures i * |symbols| + j < |CrossNames(nameOf, dates, symbols)| == |dates| * |symbols|
    ensures CrossNames(nameOf, dates, symbols)[i * |symbols| + j] == nameOf(dates[i], symbols[j])
  {
    var r := CrossNames(nameOf, dates, symbols);
    var k := |CrossNames(nameOf, dates[..i], symbols)| + j;
    CrossNamesAtOffset(nameOf, dates, symbols, i, j);
    CrossNamesPrefixLength(nameOf, dates, symbols, i);
    assert k == i * |symbols| + j;
    assert r[k] == nameOf(dates[i], symbols[j]);
    CrossNamesLength(nameOf, dates, symbols);
    CrossIndex(i, j, |dates|, |symbols|);
  }

  lemma CrossNamesPrefixLength(nameOf: (string, string) -> string, dates: seq<string>,
                               symbols: seq<string>, i: nat)
    requires i <= |dates|
    ensures |CrossNames(nameOf, dates[..i], symbols)| == i * |symbols|
  {
    CrossNamesLength(nameOf, dates[..i], symbols);
    assert |dates[..i]| == i;
  }

  /** `files += glob.glob(filename)` for each symbol, in order, where
      `nameOf` gives a symbol's file name with the date "*". */
  function GlobEach(nameOf: string -> string, symbols: seq<string>, glob: string -> seq<string>): seq<string>
  {
    if symbols == [] then []
    else
      var n := |symbols| - 1;
      GlobEach(nameOf, symbols[..n], glob) + glob(nameOf(symbols[n]))
  }

  method GlobSymbols(nameOf: string -> string, symbols: seq<string>, glob: string -> seq<string>)
    returns (files: seq<string>)
    ensures files == GlobEach(nameOf, symbols, glob)
  {
    files := [];
    for i := 0 to |symbols|
      invariant files == GlobEach(nameOf, symbols[..i], glob)
    {
      assert symbols[..i + 1][..i] == symbols[..i];
      files := files + glob(nameOf(symbols[i]));
    }
    assert symbols[..|symbols|] == symbols;
  }

  /** Globbing a list of symbols distributes over concatenation of the list. */
  lemma {:induction false} GlobEachConcat(nameOf: string -> string, a: seq<string>, b: seq<string>,
                                          glob: string -> seq<string>)
    ensures GlobEach(nameOf, a + b, glob) == GlobEach(nameOf, a, glob) + GlobEach(nameOf, b, glob)
    decreases |b|
  {
    if b == [] {
      assert a + b == a;
    } else {
      var n := |b| - 1;
      GlobEachConcat(nameOf, a, b[..n], glob);
      assert (a + b)[..|a + b| - 1] == a + b[..n];
      assert (a + b)[|a + b| - 1] == b[n];
      var tail := glob(nameOf(b[n]));
      ConcatAssoc(GlobEach(nameOf, a, glob), GlobEach(nameOf, b[..n], glob), tail);
    }
  }

  /** A path is collected exactly when the glob of some symbol's name returns it. */
  lemma {:induction false} GlobEachMembership(nameOf: string -> string, symbols: seq<string>,
                                              glob: string -> seq<string>, x: string)
    ensures x in GlobEach(nameOf, symbols, glob) <==>
            exists j :: 0 <= j < |symbols| && x in glob(nameOf(symbols[j]))
  {
    if symbols != [] {
      var n := |symbols| - 1;
      var init := symbols[..n];
      GlobEachMembership(nameOf, init, glob, x);
      if x in GlobEach(nameOf, symbols, glob) && x !in glob(nameOf(symbols[n])) {
        var j :| 0 <= j < |init| && x in glob(nameOf(init[j]));
        assert symbols[j] == init[j];
      }
      if exists j :: 0 <= j < |symbols| && x in glob(nameOf(symbols[j])) {
        var j :| 0 <= j < |symbols| && x in glob(nameOf(symbols[j]));
        if j < n {
          assert init[j] == symbols[j];
        }
      }
    }
  }

  /** The file list `load_data` builds, by branch. */
  function Candidates(q: Query, symbols: Option<seq<string>>, startDate: Option<int>,
                      endDate: Option<int>, glob: string -> seq<string>): seq<string>
  {
    if startDate.Some? && endDate.Some? then
      var dates := DateRange(startDate.value, endDate.value);
      match symbols
      case Some(syms) => CrossNames(NameBuilder(q), dates, syms)
      case None => Filtered(glob(QueryName(q, "*", "*")), dates)
    else
      match symbols
      case Some(syms) => GlobEach(WildcardName(q), syms, glob)
      case None => glob(QueryName(q, "*", "*"))
  }

  // ---------------------------------------------------------------------
  // load_data: reading and clean-up

  /** The rows of the files that could be read, concatenated in order; a
      file whose read fails (`None`) contributes nothing. */
  function Readable(files: seq<string>, read: string -> Option<seq<Row>>): seq<Row>
  {
    if files == [] then []
    else
      var n := |files| - 1;
      Readable(files[..n], read) + RowsOf(read, files[n])
  }

  /** The rows of one file, or none when it cannot be read. */
  function RowsOf(read: string -> Option<seq<Row>>, f: string): seq<Row>
  {
    match read(f)
    case Some(rows) => rows
    case None => []
  }

  /** The `for f in files: try: df = pd.concat([df, read(f)]) except: pass` loop. */
  method LoadFiles(files: seq<string>, read: string -> Option<seq<Row>>) returns (df: seq<Row>)
    ensures df == Readable(files, read)
  {
    df := [];
    for i := 0 to |files|
      invariant df == Readable(files[..i], read)
    {
      assert files[..i + 1][..i] == files[..i];
      match read(files[i]) {
        case Some(rows) => df := df + rows;
        case None =>
      }
    }
    assert files[..|files|] == files;
  }

  /** Loading works file by file, in candidate order. */
  lemma {:induction false} ReadableConcat(a: seq<string>, b: seq<string>, read: string -> Option<seq<Row>>)
    ensures Readable(a + b, read) == Readable(a, read) + Readable(b, read)
    decreases |b|
  {
    if b == [] {
      assert a + b == a;
    } else {
      var n := |b| - 1;
      ReadableConcat(a, b[..n], read);
      assert (a + b)[..|a + b| - 1] == a + b[..n];
      assert (a + b)[|a + b| - 1] == b[n];
      var tail := RowsOf(read, b[n]);
      assert Readable(a + b, read) == Readable(a + b[..n], read) + tail;
      assert Readable(b, read) == Readable(b[..n], read) + tail;
      ConcatAssoc(Readable(a, read), Readable(b[..n], read), tail);
    }
  }

  /** A file that cannot be read is skipped without affecting the others. */
  lemma UnreadableSkipped(a: seq<string>, f: string, b: seq<string>, read: string -> Option<seq<Row>>)
    requires read(f).None?
    ensures Readable(a + [f] + b, read) == Readable(a + b, read)
  {
    ReadableConcat(a + [f], b, read);
    ReadableConcat(a, [f], read);
    assert Readable([f], read) == [] by {
      assert [f][..0] == [];
    }
    assert Readable(a + [f], read) == Readable(a, read);
    ReadableConcat(a, b, read);
  }

  /** Every loaded row comes from a readable candidate file. */
  lemma {:induction false} ReadableOrigin(files: seq<string>, read: string -> Option<seq<Row>>, y: Row)
    requires y in Readable(files, read)
    ensures exists k :: 0 <= k < |files| && read(files[k]).Some? && y in read(files[k]).value
  {
    var n := |files| - 1;
    var init := files[..n];
    if y in Readable(init, read) {
      ReadableOrigin(init, read, y);
      var k :| 0 <= k < |init| && read(init[k]).Some? && y in read(init[k]).value;
      assert files[k] == init[k];
    }
  }

  /** `load_data`: pick the candidate files, load the readable ones, then
      sort by index and drop duplicated rows. */
  method LoadData(q: Query, symbols: Option<seq<string>>, startDate: Option<int>,
                  endDate: Option<int>, glob: string -> seq<string>,
                  read: string -> Option<seq<Row>>) returns (df: seq<Row>)
    ensures df == Clean(Readable(Candidates(q, symbols, startDate, endDate, glob), read))
    ensures SortedByIndex(df) && DistinctCols(df)
  {
    var files: seq<string>;
    if startDate.Some? && endDate.Some? {
      var dateRange := GenerateDateRange(startDate.value, endDate.value);
      if symbols.Some? {
        files := CrossProduct(NameBuilder(q), dateRange, symbols.value);
      } else {
        var allFiles := glob(QueryName(q, "*", "*"));
        files := FilterFiles(allFiles, dateRange);
      }
    } else {
      if symbols.Some? {
        files := GlobSymbols(WildcardName(q), symbols.value, glob);
      } else {
        files := glob(QueryName(q, "*", "*"));
      }
    }
    df := LoadFiles(files, read);
    CleanSpec(df);
    df := Clean(df);
  }
}
