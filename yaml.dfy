/**
 * The lenient line-by-line parsers of the stats bodies (parseYamlMap) and of
 * the tube-list bodies (parseYamlList). Neither ever fails: a line that does
 * not have the expected shape is skipped.
 */
module Yaml {
  import opened JavaStrings

  /** A line parseYamlMap keeps: it splits on ": " into exactly two pieces. */
  predicate IsEntry(line: string) { |Split(line, ": ")| == 2 }

  function Key(line: string): (r: string) requires IsEntry(line) { Split(line, ": ")[0] }

  function Value(line: string): (r: string) requires IsEntry(line) { Split(line, ": ")[1] }

  /** A line parseYamlList keeps: it splits on "- " into exactly two pieces. */
  predicate IsItem(line: string) { |Split(line, "- ")| == 2 }

  function Item(line: string): (r: string) requires IsItem(line) { Split(line, "- ")[1] }

  /** The (key, value) pairs of the lines parseYamlMap keeps, in input order. */
  function Entries(lines: seq<string>): (r: seq<(string, string)>)
  {
    if lines == [] then []
    else
      var last := lines[|lines| - 1];
      Entries(lines[..|lines| - 1]) + if IsEntry(last) then [(Key(last), Value(last))] else []
  }

  /** The map that putting the pairs into an empty map, one after the other, builds. */
  function MapOf(ps: seq<(string, string)>): map<string, string>
  {
    if ps == [] then map[]
    else MapOf(ps[..|ps| - 1])[ps[|ps| - 1].0 := ps[|ps| - 1].1]
  }

  /** The map parseYamlMap builds from the given lines. */
  function YamlMap(lines: seq<string>): (m: map<string, string>)
    ensures forall k :: k in m <==> exists i :: 0 <= i < |lines| && IsEntry(lines[i]) && Key(lines[i]) == k
  {
    KeysOfLines(lines);
    MapOf(Entries(lines))
  }

  /** The keys of the pairs of the lines are the keys of the kept lines. */
  lemma KeysOfLines(lines: seq<string>)
    ensures forall k :: k in MapOf(Entries(lines)) <==> exists i :: 0 <= i < |lines| && IsEntry(lines[i]) && Key(lines[i]) == k
  {
    var ps := Entries(lines);
    KeysOfMap(ps);
    EntriesFromLines(lines);
    LinesToEntries(lines);
    forall k | k in MapOf(ps)
      ensures exists i :: 0 <= i < |lines| && IsEntry(lines[i]) && Key(lines[i]) == k
    {
      var j :| 0 <= j < |ps| && ps[j].0 == k;
      assert ps[j] in ps;
    }
    forall k | exists i :: 0 <= i < |lines| && IsEntry(lines[i]) && Key(lines[i]) == k
      ensures k in MapOf(ps)
    {
      var i :| 0 <= i < |lines| && IsEntry(lines[i]) && Key(lines[i]) == k;
      var p := (Key(lines[i]), Value(lines[i]));
      assert p in ps;
      var j :| 0 <= j < |ps| && ps[j] == p;
    }
  }

  /**
   * The list parseYamlList has built after the given lines: every element is
   * the item of some line, so there are never more elements than lines.
   */
  function YamlList(lines: seq<string>): (r: seq<string>)
    ensures |r| <= |lines|
  {
    if lines == [] then []
    else
      var n := |lines| - 1;
      var last := lines[n];
      YamlList(lines[..n]) + if IsItem(last) then [Item(last)] else []
  }

  /** Every element of the list is the item of some item line. */
  lemma {:induction false} ListFromItems(lines: seq<string>)
    ensures forall x :: x in YamlList(lines) ==> exists i :: 0 <= i < |lines| && IsItem(lines[i]) && Item(lines[i]) == x
  {
    if lines != [] {
      var n := |lines| - 1;
      var init := lines[..n];
      ListFromItems(init);
      var tail := if IsItem(lines[n]) then [Item(lines[n])] else [];
      assert YamlList(lines) == YamlList(init) + tail;
      forall x | x in YamlList(lines)
        ensures exists i :: 0 <= i < |lines| && IsItem(lines[i]) && Item(lines[i]) == x
      {
        if x in YamlList(init) {
          var i :| 0 <= i < |init| && IsItem(init[i]) && Item(init[i]) == x;
          assert lines[i] == init[i];
        } else {
          assert x in tail;
          assert IsItem(lines[n]) && Item(lines[n]) == x;
        }
      }
    }
  }

  /** One more line extends the pairs by that line's pair, if it has one. */
  lemma EntriesStep(lines: seq<string>, i: nat)
    requires i < |lines|
    ensures Entries(lines[..i + 1]) == Entries(lines[..i]) + if IsEntry(lines[i]) then [(Key(lines[i]), Value(lines[i]))] else []
  {
    assert lines[..i + 1][..i] == lines[..i];
  }

  /** One more pair puts its key to its value. */
  lemma MapOfStep(ps: seq<(string, string)>, k: string, v: string)
    ensures MapOf(ps + [(k, v)]) == MapOf(ps)[k := v]
  {
    assert (ps + [(k, v)])[..|ps|] == ps;
  }

  /** parseYamlMap: reads yaml line by line and puts piece 0 to piece 1 for each line that splits into two. */
  method ParseYamlMap(yaml: string) returns (m: map<string, string>)
    ensures m == YamlMap(Lines(yaml))
  {
    m := map[];
    var lines := Lines(yaml);
    var i := 0;
    while i < |lines|
      invariant i <= |lines|
      invariant m == MapOf(Entries(lines[..i]))
    {
      var kv := Split(lines[i], ": ");
      EntriesStep(lines, i);
      if |kv| == 2 {
        MapOfStep(Entries(lines[..i]), kv[0], kv[1]);
        m := m[kv[0] := kv[1]];
      } else {
        assert Entries(lines[..i]) + [] == Entries(lines[..i]);
      }
      i := i + 1;
    }
    assert lines[..i] == lines;
  }

  /** parseYamlList: reads yaml line by line and appends piece 1 of each line that splits into two. */
  method ParseYamlList(yaml: string) returns (list: seq<string>)
    ensures list == YamlList(Lines(yaml))
  {
    list := [];
    var lines := Lines(yaml);
    var i := 0;
    while i < |lines|
      invariant i <= |lines|
      invariant list == YamlList(lines[..i])
    {
      var kv := Split(lines[i], "- ");
      if |kv| == 2 {
        list := list + [kv[1]];
      }
      assert lines[..i + 1][..i] == lines[..i];
      i := i + 1;
    }
    assert lines[..i] == lines;
  }

  /** A key is in the built map exactly when some pair has that key. */
  lemma {:induction false} KeysOfMap(ps: seq<(string, string)>)
    ensures forall k :: k in MapOf(ps) <==> exists i :: 0 <= i < |ps| && ps[i].0 == k
  {
    if ps != [] {
      var n := |ps| - 1;
      KeysOfMap(ps[..n]);
      assert forall i :: 0 <= i < n ==> ps[..n][i] == ps[i];
    }
  }

  /** The value of a key in the built map is the one of the last pair with that key. */
  lemma {:induction false} LastEntryWins(ps: seq<(string, string)>, k: string)
    requires k in MapOf(ps)
    ensures exists i :: 0 <= i < |ps| && ps[i].0 == k && MapOf(ps)[k] == ps[i].1 &&
                        (forall j :: i < j < |ps| ==> ps[j].0 != k)
  {
    var n := |ps| - 1;
    if ps[n].0 != k {
      var init := ps[..n];
      LastEntryWins(init, k);
      var i :| 0 <= i < n && init[i].0 == k && MapOf(init)[k] == init[i].1 &&
        forall j :: i < j < n ==> init[j].0 != k;
      assert init[i] == ps[i];
      forall j | i < j < |ps| ensures ps[j].0 != k {
        if j < n { assert init[j] == ps[j]; }
      }
    }
  }

  /** Every pair comes from a kept line, so there are never more pairs than lines. */
  lemma {:induction false} EntriesFromLines(lines: seq<string>)
    ensures |Entries(lines)| <= |lines|
    ensures forall p :: p in Entries(lines) ==>
      exists i :: 0 <= i < |lines| && IsEntry(lines[i]) && p == (Key(lines[i]), Value(lines[i]))
  {
    if lines != [] {
      var n := |lines| - 1;
      var init := lines[..n];
      EntriesFromLines(init);
      EntriesStep(lines, n);
      assert lines[..n + 1] == lines;
      forall p | p in Entries(lines)
        ensures exists i :: 0 <= i < |lines| && IsEntry(lines[i]) && p == (Key(lines[i]), Value(lines[i]))
      {
        if p in Entries(init) {
          var i :| 0 <= i < |init| && IsEntry(init[i]) && p == (Key(init[i]), Value(init[i]));
          assert init[i] == lines[i];
        }
      }
    }
  }

  /** Every kept line contributes its pair. */
  lemma {:induction false} LinesToEntries(lines: seq<string>)
    ensures forall i :: 0 <= i < |lines| && IsEntry(lines[i]) ==> (Key(lines[i]), Value(lines[i])) in Entries(lines)
  {
    if lines != [] {
      var n := |lines| - 1;
      var init := lines[..n];
      LinesToEntries(init);
      var tail := if IsEntry(lines[n]) then [(Key(lines[n]), Value(lines[n]))] else [];
      assert Entries(lines) == Entries(init) + tail;
      forall i | 0 <= i < |lines| && IsEntry(lines[i])
        ensures (Key(lines[i]), Value(lines[i])) in Entries(lines)
      {
        if i < n {
          assert init[i] == lines[i];
          assert (Key(init[i]), Value(init[i])) in Entries(init);
        } else {
          assert (Key(lines[n]), Value(lines[n])) in tail;
        }
      }
    }
  }

  /** Every kept line contributes its item to the parsed list. */
  lemma {:induction false} ItemsToList(lines: seq<string>)
    ensures forall i :: 0 <= i < |lines| && IsItem(lines[i]) ==> Item(lines[i]) in YamlList(lines)
  {
    if lines != [] {
      var n := |lines| - 1;
      var init := lines[..n];
      ItemsToList(init);
      var tail := if IsItem(lines[n]) then [Item(lines[n])] else [];
      assert YamlList(lines) == YamlList(init) + tail;
      forall i | 0 <= i < |lines| && IsItem(lines[i])
        ensures Item(lines[i]) in YamlList(lines)
      {
        if i < n {
          assert init[i] == lines[i];
          assert Item(init[i]) in YamlList(init);
        } else {
          assert Item(lines[n]) in tail;
        }
      }
    }
  }

  /** A string in which sep does not occur is split into itself alone. */
  lemma NoOccurrence(s: string, sep: string)
    requires |sep| > 0
    requires forall j :: 0 <= j < |s| ==> !OccursAt(s, sep, j)
    ensures Split(s, sep) == [s]
  {
    FindFromIs(s, sep, 0, |s|);
  }

  /** A name that a tube-list line "- name" gives back unchanged. */
  predicate ListableName(n: string)
  {
    n != "" && NoBreaks(n) && forall j :: 0 <= j < |n| ==> !OccursAt(n, "- ", j)
  }

  /** The lines of a tube-list body for the given names. */
  function ItemLines(names: seq<string>): (r: seq<string>)
  {
    seq(|names|, i requires 0 <= i < |names| => "- " + names[i])
  }

  lemma ItemLine(n: string)
    requires ListableName(n)
    ensures IsItem("- " + n) && Item("- " + n) == n
  {
    SplitPair("", "- ", n);
    assert "" + "- " + n == "- " + n;
  }

  lemma ItemLinesSnoc(names: seq<string>)
    requires names != []
    ensures ItemLines(names) == ItemLines(names[..|names| - 1]) + ["- " + names[|names| - 1]]
  {
  }

  /** The document marker "---" is not a list item. */
  lemma MarkerIsNoItem()
    ensures !IsItem("---")
  {
    forall j | 0 <= j < 3 ensures !OccursAt("---", "- ", j) {
      if j + 2 <= 3 { assert "---"[j..j + 2][1] == '-'; }
    }
    NoOccurrence("---", "- ");
  }

  /** One more line that is an item appends that item. */
  lemma YamlListSnoc(lines: seq<string>, last: string)
    requires IsItem(last)
    ensures YamlList(lines + [last]) == YamlList(lines) + [Item(last)]
  {
    assert (lines + [last])[..|lines|] == lines;
  }

  /** Parsing "---" and then one "- name" line per name gives back the names, in order. */
  lemma {:induction false} ItemLinesParse(names: seq<string>)
    requires forall i :: 0 <= i < |names| ==> ListableName(names[i])
    ensures YamlList(["---"] + ItemLines(names)) == names
  {
    if names == [] {
      assert ["---"] + ItemLines(names) == [] + ["---"];
      MarkerIsNoItem();
    } else {
      var n := |names| - 1;
      var init := ["---"] + ItemLines(names[..n]);
      var last := "- " + names[n];
      ItemLinesParse(names[..n]);
      ItemLinesSnoc(names);
      Regroup(["---"], ItemLines(names[..n]), [last]);
      ItemLine(names[n]);
      YamlListSnoc(init, last);
      assert names[..n] + [names[n]] == names;
    }
  }

  /**
   * A tube-list body as the server writes it, "---" and then "- name" per
   * line, parses back to exactly those names.
   */
  lemma ListRoundTrip(names: seq<string>)
    requires forall i :: 0 <= i < |names| ==> ListableName(names[i])
    ensures YamlList(Lines("---\n" + Terminated(ItemLines(names)))) == names
  {
    var lines := ["---"] + ItemLines(names);
    forall k | 0 <= k < |lines| ensures NoBreaks(lines[k]) {
      if k > 0 {
        var l := lines[k];
        assert l == "- " + names[k - 1];
        forall i | 0 <= i < |l| ensures !IsBreak(l[i]) {
          if i >= 2 { assert l[i] == names[k - 1][i - 2]; }
        }
      }
    }
    assert Terminated(lines) == "---\n" + Terminated(ItemLines(names));
    LinesOfTerminated(lines);
    ItemLinesParse(names);
  }

  /** "---\n- x\n- y\n" parses to ["x", "y"]. */
  lemma ListExample()
    ensures YamlList(Lines("---\n- x\n- y\n")) == ["x", "y"]
  {
    var names := ["x", "y"];
    assert ListableName("x") by { assert !OccursAt("x", "- ", 0); }
    assert ListableName("y") by { assert !OccursAt("y", "- ", 0); }
    assert "- " + "x" == "- x" && "- " + "y" == "- y";
    assert ItemLines(names) == ["- x", "- y"];
    assert Terminated(["- y"]) == "- y\n";
    assert ["- x", "- y"][1..] == ["- y"];
    assert Terminated(["- x", "- y"]) == "- x\n- y\n";
    assert "---\n" + Terminated(ItemLines(names)) == "---\n- x\n- y\n";
    ListRoundTrip(names);
  }

  /** A line "key: value" is kept with that key and value when ": " occurs in it only once. */
  lemma EntryLine(k: string, v: string)
    requires v != ""
    requires forall j :: 0 <= j < |k| ==> !OccursAt(k + ": " + v, ": ", j)
    requires forall j :: 0 <= j < |v| ==> !OccursAt(v, ": ", j)
    ensures IsEntry(k + ": " + v) && Key(k + ": " + v) == k && Value(k + ": " + v) == v
  {
    SplitPair(k, ": ", v);
  }

  lemma ExampleLines()
    ensures Lines("a: 1\nb: 2\n") == ["a: 1", "b: 2"]
  {
    var lines := ["a: 1", "b: 2"];
    assert Terminated(["b: 2"]) == "b: 2\n";
    assert lines[1..] == ["b: 2"];
    assert Terminated(lines) == "a: 1\nb: 2\n";
    LinesOfTerminated(lines);
  }

  lemma ExampleEntries()
    ensures Entries(["a: 1", "b: 2"]) == [("a", "1"), ("b", "2")]
  {
    var lines := ["a: 1", "b: 2"];
    assert !OccursAt("a: 1", ": ", 0) by { assert "a: 1"[0..2][0] == 'a'; }
    EntryLine("a", "1");
    assert "a" + ": " + "1" == "a: 1";
    assert !OccursAt("b: 2", ": ", 0) by { assert "b: 2"[0..2][0] == 'b'; }
    EntryLine("b", "2");
    assert "b" + ": " + "2" == "b: 2";
    assert lines[..1] == ["a: 1"] && lines[..1][..0] == [];
    assert Entries(lines[..1]) == [("a", "1")];
  }

  /** "a: 1\nb: 2\n" parses to the map a -> 1, b -> 2. */
  lemma MapExample()
    ensures YamlMap(Lines("a: 1\nb: 2\n")) == map["a" := "1", "b" := "2"]
  {
    var lines := Lines("a: 1\nb: 2\n");
    ExampleLines();
    ExampleEntries();
    var ps := [("a", "1"), ("b", "2")];
    assert Entries(lines) == ps;
    assert ps[..1] == [("a", "1")];
    assert MapOf([("a", "1")]) == map["a" := "1"];
    assert MapOf(ps) == map["a" := "1", "b" := "2"];
    assert YamlMap(lines) == MapOf(ps);
  }
}
