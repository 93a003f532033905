/** File naming for the stored results: the filename sanitiser, and which
    files saving a search writes. The writing itself is not modelled. */
module Storage {
  import opened Text
  import Parser

  // ---------------------------------------------------------------------------
  // The filename sanitiser
  // ---------------------------------------------------------------------------

  /** The characters a file name may not hold besides whitespace. */
  const UnsafeChars: set<char> := {'\\', '/', ':', '*', '?', '"', '<', '>', '|'}

  predicate Unsafe(c: char) {
    c in UnsafeChars || c in Whitespace
  }

  /** Every unsafe character becomes an underscore. */
  function ReplaceUnsafe(s: string): (r: string)
    ensures |r| == |s|
    ensures forall i :: 0 <= i < |s| ==> r[i] == if Unsafe(s[i]) then '_' else s[i]
  {
    seq(|s|, i requires 0 <= i < |s| => if Unsafe(s[i]) then '_' else s[i])
  }

  /** No two underscores stand next to each other. */
  predicate NoDoubles(s: string) {
    forall i :: 0 <= i < |s| - 1 ==> !(s[i] == '_' && s[i + 1] == '_')
  }

  /** No character is unsafe. */
  predicate SafeChars(s: string) {
    forall i :: 0 <= i < |s| ==> !Unsafe(s[i])
  }

  /** Every run of underscores becomes a single underscore. */
  function Collapse(s: string): string
    decreases |s|
  {
    if |s| < 2 then s
    else if s[0] == '_' && s[1] == '_' then Collapse(s[1..])
    else [s[0]] + Collapse(s[1..])
  }

  /** _sanitize_filename: unsafe characters become underscores, runs of
      underscores collapse, underscores at either end go, and an empty
      result becomes "unnamed". */
  function SanitizeFilename(name: string): string {
    var trimmed := Trim(Collapse(ReplaceUnsafe(name)), {'_'});
    if trimmed == [] then "unnamed" else trimmed
  }

  /** What a sanitised name looks like. */
  predicate SafeName(s: string) {
    s != [] && s[0] != '_' && s[|s| - 1] != '_' && NoDoubles(s) && SafeChars(s)
  }

  /** The characters of s outside drop, in order. */
  function Keep(s: string, drop: set<char>): string
    decreases |s|
  {
    if s == [] then []
    else (if s[0] in drop then [] else [s[0]]) + Keep(s[1..], drop)
  }

  /** The characters that are neither unsafe nor underscores. */
  const Separators: set<char> := UnsafeChars + Whitespace + {'_'}

  /** The characters that carry a name, in order. */
  function Content(s: string): string {
    Keep(s, Separators)
  }

  /** Collapsing leaves no double underscore and keeps the first and the
      last character. */
  lemma {:induction false} CollapseShape(s: string)
    ensures var r := Collapse(s);
            NoDoubles(r) && (r == [] <==> s == []) &&
            (r != [] ==> r[0] == s[0] && r[|r| - 1] == s[|s| - 1])
    decreases |s|
  {
    if |s| >= 2 {
      var tail := s[1..];
      CollapseShape(tail);
      var rt := Collapse(tail);
      if !(s[0] == '_' && s[1] == '_') {
        var r := [s[0]] + rt;
        forall i | 0 <= i < |r| - 1
          ensures !(r[i] == '_' && r[i + 1] == '_')
        {
          if i > 0 {
            assert r[i] == rt[i - 1] && r[i + 1] == rt[i];
          } else {
            assert r[1] == rt[0] == tail[0] == s[1];
          }
        }
      }
    }
  }

  /** Collapsing brings in no unsafe character. */
  lemma {:induction false} CollapseSafe(s: string)
    requires SafeChars(s)
    ensures SafeChars(Collapse(s))
    decreases |s|
  {
    if |s| >= 2 {
      CollapseSafe(s[1..]);
    }
  }

  /** Collapsing keeps every character outside a drop set that holds the
      underscore. */
  lemma {:induction false} CollapseKeep(s: string, drop: set<char>)
    requires '_' in drop
    ensures Keep(Collapse(s), drop) == Keep(s, drop)
    decreases |s|
  {
    if |s| >= 2 {
      CollapseKeep(s[1..], drop);
      if !(s[0] == '_' && s[1] == '_') {
        KeepAppend([s[0]], Collapse(s[1..]), drop);
        KeepAppend([s[0]], s[1..], drop);
        assert [s[0]] + s[1..] == s;
      }
    }
  }

  /** A string with no double underscore is its own collapse. */
  lemma {:induction false} CollapseClean(s: string)
    requires NoDoubles(s)
    ensures Collapse(s) == s
    decreases |s|
  {
    if |s| >= 2 {
      CollapseClean(s[1..]);
      assert [s[0]] + s[1..] == s;
    }
  }

  lemma {:induction false} KeepAppend(a: string, b: string, drop: set<char>)
    ensures Keep(a + b, drop) == Keep(a, drop) + Keep(b, drop)
    decreases |a|
  {
    if a != [] {
      assert (a + b)[1..] == a[1..] + b;
      KeepAppend(a[1..], b, drop);
    } else {
      assert a + b == b;
    }
  }

  lemma {:induction false} KeepNone(s: string, drop: set<char>)
    requires forall i :: 0 <= i < |s| ==> s[i] in drop
    ensures Keep(s, drop) == []
    decreases |s|
  {
    if s != [] {
      KeepNone(s[1..], drop);
    }
  }

  /** Replacing unsafe characters by underscores keeps the content. */
  lemma {:induction false} ReplaceKeep(s: string)
    ensures Content(ReplaceUnsafe(s)) == Content(s)
    decreases |s|
  {
    if s != [] {
      ReplaceKeep(s[1..]);
      assert ReplaceUnsafe(s)[1..] == ReplaceUnsafe(s[1..]);
    }
  }

  lemma ReplaceSafe(s: string)
    ensures SafeChars(ReplaceUnsafe(s))
  {
    assert !Unsafe('_');
  }

  /** Underscores around a string carry nothing a drop set holding the
      underscore keeps. */
  lemma PadKeep(front: string, t: string, back: string, drop: set<char>)
    requires '_' in drop
    requires forall i :: 0 <= i < |front| ==> front[i] == '_'
    requires forall i :: 0 <= i < |back| ==> back[i] == '_'
    ensures Keep(front + t + back, drop) == Keep(t, drop)
  {
    KeepNone(front, drop);
    KeepNone(back, drop);
    KeepAppend(front, t, drop);
    KeepAppend(front + t, back, drop);
  }

  /** Trimming underscores takes off underscore padding on either side. */
  lemma TrimSplit(s: string) returns (front: string, back: string)
    ensures s == front + Trim(s, {'_'}) + back
    ensures forall i :: 0 <= i < |front| ==> front[i] == '_'
    ensures forall i :: 0 <= i < |back| ==> back[i] == '_'
  {
    var a := TrimStart(s, {'_'});
    var t := TrimEnd(a, {'_'});
    var off := |s| - |a|;
    front := s[..off];
    back := a[|t|..];
    forall i | 0 <= i < |front|
      ensures front[i] == '_'
    {
      assert s[i] in {'_'};
    }
    forall i | 0 <= i < |back|
      ensures back[i] == '_'
    {
      assert a[|t| + i] in {'_'};
    }
    var joined := front + t + back;
    forall i | 0 <= i < |s|
      ensures s[i] == joined[i]
    {
      if i >= off {
        assert s[i] == a[i - off];
        if i - off < |t| {
          assert a[i - off] == t[i - off];
        }
      }
    }
  }

  /** Trimming underscores keeps every character outside a drop set that
      holds the underscore. */
  lemma TrimKeep(s: string, drop: set<char>)
    requires '_' in drop
    ensures Keep(Trim(s, {'_'}), drop) == Keep(s, drop)
  {
    var front, back := TrimSplit(s);
    PadKeep(front, Trim(s, {'_'}), back, drop);
  }

  /** Trimming underscores keeps NoDoubles. */
  lemma TrimNoDoubles(s: string)
    requires NoDoubles(s)
    ensures NoDoubles(Trim(s, {'_'}))
  {
    var a := TrimStart(s, {'_'});
    var t := TrimEnd(a, {'_'});
    assert Trim(s, {'_'}) == t;
    assert a == s[|s| - |a|..] && t == a[..|t|];
    SliceShape(s, |s| - |a|, |s|);
    SliceShape(a, 0, |t|);
  }

  /** Trimming underscores keeps SafeChars. */
  lemma TrimSafeChars(s: string)
    requires SafeChars(s)
    ensures SafeChars(Trim(s, {'_'}))
  {
    var a := TrimStart(s, {'_'});
    var t := TrimEnd(a, {'_'});
    assert Trim(s, {'_'}) == t;
    assert a == s[|s| - |a|..] && t == a[..|t|];
    SliceShape(s, |s| - |a|, |s|);
    SliceShape(a, 0, |t|);
  }

  /** Trimming underscores leaves none at either end. */
  lemma TrimEnds(s: string)
    ensures var t := Trim(s, {'_'});
            t != [] ==> t[0] != '_' && t[|t| - 1] != '_'
  {
    var a := TrimStart(s, {'_'});
    var t := TrimEnd(a, {'_'});
    assert Trim(s, {'_'}) == t;
    if t != [] {
      assert a != [] && a[0] !in {'_'};
      assert t == a[..|t|];
      assert t[0] == a[0];
      assert t[|t| - 1] !in {'_'};
    }
  }

  /** A slice of a string keeps its shape. */
  lemma SliceShape(s: string, i: nat, j: nat)
    requires i <= j <= |s|
    ensures NoDoubles(s) ==> NoDoubles(s[i..j])
    ensures SafeChars(s) ==> SafeChars(s[i..j])
  {
    var t := s[i..j];
    if NoDoubles(s) {
      forall k | 0 <= k < |t| - 1 ensures !(t[k] == '_' && t[k + 1] == '_') {
        assert t[k] == s[i + k] && t[k + 1] == s[i + k + 1];
      }
    }
  }

  /** A sanitised name is never empty, has no unsafe character, no double
      underscore and no underscore at either end. */
  lemma SanitizeSafe(name: string)
    ensures SafeName(SanitizeFilename(name))
  {
    var replaced := ReplaceUnsafe(name);
    ReplaceSafe(name);
    CollapseShape(replaced);
    CollapseSafe(replaced);
    var collapsed := Collapse(replaced);
    TrimNoDoubles(collapsed);
    TrimSafeChars(collapsed);
    TrimEnds(collapsed);
    var t := Trim(collapsed, {'_'});
    if t == [] {
      UnnamedSafe();
    } else {
      assert SafeName(t);
    }
  }

  /** The fallback name is itself a sanitised name. */
  lemma UnnamedSafe()
    ensures SafeName("unnamed")
  {
    var u := "unnamed";
    assert u[0] == 'u' && u[6] == 'd';
    assert SafeChars(u) && NoDoubles(u);
  }

  /** The name's content survives sanitising, and a name with no content
      becomes "unnamed". */
  lemma SanitizeKeepsContent(name: string)
    ensures Content(name) != [] ==> Content(SanitizeFilename(name)) == Content(name)
    ensures Content(name) == [] ==> SanitizeFilename(name) == "unnamed"
  {
    var replaced := ReplaceUnsafe(name);
    var collapsed := Collapse(replaced);
    ReplaceKeep(name);
    CollapseKeep(replaced, Separators);
    TrimKeep(collapsed, Separators);
    var t := Trim(collapsed, {'_'});
    if t != [] {
      SanitizeSafe(name);
      assert t[0] !in Separators;
      assert Keep(t, Separators) == [t[0]] + Keep(t[1..], Separators);
    }
  }

  /** A name made only of unsafe characters and underscores becomes "unnamed". */
  lemma AllUnsafeUnnamed(name: string)
    requires forall i :: 0 <= i < |name| ==> Unsafe(name[i]) || name[i] == '_'
    ensures SanitizeFilename(name) == "unnamed"
  {
    KeepNone(name, Separators);
    SanitizeKeepsContent(name);
  }

  /** A name that is already safe is left as it is. */
  lemma SanitizeClean(name: string)
    requires SafeName(name)
    ensures SanitizeFilename(name) == name
  {
    assert ReplaceUnsafe(name) == name;
    CollapseClean(name);
    TrimClean(name, {'_'});
  }

  /** Sanitising twice is sanitising once. */
  lemma SanitizeIdempotent(name: string)
    ensures SanitizeFilename(SanitizeFilename(name)) == SanitizeFilename(name)
  {
    SanitizeSafe(name);
    SanitizeClean(SanitizeFilename(name));
  }

  // ---------------------------------------------------------------------------
  // Saving search results
  // ---------------------------------------------------------------------------

  /** The storage configuration: the output root and which formats to save. */
  datatype Storage = Storage(root: string, saveJson: bool, saveCsv: bool)

  /** One file write: the raw JSON document of a search, or rows appended to
      the keyword's CSV table. */
  datatype Write =
    | JsonDocument(path: string, keyword: string, count: nat)
    | CsvRows(path: string, rows: nat)

  /** The name of the raw JSON file for a keyword and a timestamp. */
  function JsonName(keyword: string, timestamp: string): string {
    SanitizeFilename(keyword) + "_" + timestamp + ".json"
  }

  /** The name of the CSV table for a keyword. */
  function CsvName(keyword: string): string {
    "search_results_" + SanitizeFilename(keyword) + ".csv"
  }

  function JsonPath(st: Storage, keyword: string, timestamp: string): string {
    st.root + "/raw/" + JsonName(keyword, timestamp)
  }

  function CsvPath(st: Storage, keyword: string): string {
    st.root + "/processed/" + CsvName(keyword)
  }

  /** save_search_results: nothing when there are no results; otherwise the
      JSON document and then the CSV rows, each when configured. The
      timestamp is the clock's reading, taken as a parameter. */
  function SaveSearchResults(st: Storage, keyword: string, results: seq<Parser.SummaryRecord>, timestamp: string): seq<Write> {
    if results == [] then []
    else
      (if st.saveJson then [JsonDocument(JsonPath(st, keyword, timestamp), keyword, |results|)] else []) +
      (if st.saveCsv then [CsvRows(CsvPath(st, keyword), |results|)] else [])
  }

  /** Saving writes nothing exactly when there are no results or no format is
      configured; otherwise it writes one file per configured format, each
      holding every result, and the JSON document records the original
      keyword. */
  lemma SaveFacts(st: Storage, keyword: string, results: seq<Parser.SummaryRecord>, timestamp: string)
    ensures var w := SaveSearchResults(st, keyword, results, timestamp);
            (w == [] <==> results == [] || (!st.saveJson && !st.saveCsv)) &&
            |w| == (if results == [] then 0 else (if st.saveJson then 1 else 0) + (if st.saveCsv then 1 else 0)) &&
            (forall k :: 0 <= k < |w| && w[k].JsonDocument? ==>
               w[k].count == |results| && w[k].keyword == keyword && w[k].path == JsonPath(st, keyword, timestamp)) &&
            (forall k :: 0 <= k < |w| && w[k].CsvRows? ==> w[k].rows == |results| && w[k].path == CsvPath(st, keyword))
  {
  }

  /** The keyword cannot move a file out of its directory: a file name has
      no separator when the timestamp has none. */
  lemma FilesStayInPlace(keyword: string, timestamp: string)
    requires '/' !in timestamp
    ensures '/' !in JsonName(keyword, timestamp)
    ensures '/' !in CsvName(keyword)
  {
    var safe := SanitizeFilename(keyword);
    SanitizeSafe(keyword);
    assert Unsafe('/');
    assert '/' !in safe;
    assert JsonName(keyword, timestamp) == safe + ("_" + timestamp + ".json");
  }
}
