/**
 * The icon-name update script (scripts/update_material_icon_names.py): it collects the
 * first word of every line of the Material Symbols codepoints file, reports the names
 * that are new, and generates the `ALL_MATERIAL_ICONS` block between the two marker
 * lines that its regular expression looks for.
 */
module MaterialIconNames {
  import opened Base
  import opened Sorting
  import opened PyText

  const StartMarker: string := "### MATERIAL ICON NAMES START ###"
  const EndMarker: string := "### MATERIAL ICON NAMES END ###"

  /** `line.split()[0]` raised `IndexError` on the line at `lineIndex` (it holds no word). */
  datatype ExtractError = NoWordOnLine(lineIndex: nat)

  /**
   * What the extraction loop yields for `lines`: the set of their first words, or the
   * first line that has none.
   */
  function IconNamesOf(lines: seq<string>): Result<set<string>, ExtractError>
    decreases |lines|
  {
    if lines == [] then Success({})
    else
      var before := IconNamesOf(lines[..|lines| - 1]);
      var name := FirstWord(lines[|lines| - 1]);
      if before.Failure? then before
      else if name.None? then Failure(NoWordOnLine(|lines| - 1))
      else Success(before.value + {name.value})
  }

  /**
   * The extraction loop: one name per line of `content.splitlines()`, collected in a set.
   * It stops at the first line without a word, as the subscript raises there.
   */
  method ExtractIconNames(content: string) returns (r: Result<set<string>, ExtractError>)
    ensures r == IconNamesOf(SplitLines(content))
  {
    var lines := SplitLines(content);
    var iconNames: set<string> := {};
    var i := 0;
    while i < |lines|
      invariant 0 <= i <= |lines|
      invariant IconNamesOf(lines[..i]) == Success(iconNames)
    {
      assert lines[..i + 1][..i] == lines[..i];
      var name := FirstWord(lines[i]);
      if name.None? {
        assert IconNamesOf(lines[..i + 1]) == Failure(NoWordOnLine(i));
        IconNamesFailurePersists(lines, i + 1);
        return Failure(NoWordOnLine(i));
      }
      iconNames := iconNames + {name.value};
      i := i + 1;
    }
    assert lines[..i] == lines;
    return Success(iconNames);
  }

  /** Once a line without a word is met, later lines do not change the outcome. */
  lemma {:induction false} IconNamesFailurePersists(lines: seq<string>, i: nat)
    requires i <= |lines| && IconNamesOf(lines[..i]).Failure?
    ensures IconNamesOf(lines) == IconNamesOf(lines[..i])
    decreases |lines| - i
  {
    if i < |lines| {
      assert lines[..i + 1][..i] == lines[..i];
      IconNamesFailurePersists(lines, i + 1);
    } else {
      assert lines[..i] == lines;
    }
  }

  /** The extraction fails exactly when some line holds no word, and then names the first such line. */
  lemma {:induction false} IconNamesFailsExactly(lines: seq<string>)
    ensures IconNamesOf(lines).Failure? <==> exists k :: 0 <= k < |lines| && FirstWord(lines[k]).None?
    ensures IconNamesOf(lines).Failure? ==>
      var k := IconNamesOf(lines).error.lineIndex;
      && k < |lines|
      && FirstWord(lines[k]).None?
      && forall j :: 0 <= j < k ==> FirstWord(lines[j]).Some?
    decreases |lines|
  {
    if lines != [] {
      var init := lines[..|lines| - 1];
      IconNamesFailsExactly(init);
      assert forall k :: 0 <= k < |init| ==> init[k] == lines[k];
      if IconNamesOf(init).Success? && FirstWord(lines[|lines| - 1]).None? {
        assert FirstWord(lines[|lines| - 1]).None?;
      }
    }
  }

  /** `y` is `f` of some element of `xs`. */
  ghost predicate InImage<T, U>(xs: seq<T>, f: T -> U, y: U) {
    exists k :: 0 <= k < |xs| && f(xs[k]) == y
  }

  /** The image of a sequence is the image of all but its last element, plus `f` of the last. */
  lemma InImageStep<T, U>(xs: seq<T>, f: T -> U, y: U)
    requires xs != []
    ensures InImage(xs, f, y) <==> InImage(xs[..|xs| - 1], f, y) || f(xs[|xs| - 1]) == y
  {
    var init := xs[..|xs| - 1];
    if InImage(xs, f, y) {
      var k :| 0 <= k < |xs| && f(xs[k]) == y;
      if k < |init| {
        assert init[k] == xs[k];
      }
    }
    if InImage(init, f, y) {
      var k :| 0 <= k < |init| && f(init[k]) == y;
      assert init[k] == xs[k];
    }
  }

  /** A name is collected exactly when it is the first word of some line. */
  lemma {:induction false} IconNamesCollectsFirstWords(lines: seq<string>)
    requires IconNamesOf(lines).Success?
    ensures forall n :: n in IconNamesOf(lines).value <==> InImage(lines, FirstWord, Some(n))
    decreases |lines|
  {
    if lines != [] {
      var init := lines[..|lines| - 1];
      var name := FirstWord(lines[|lines| - 1]);
      IconNamesCollectsFirstWords(init);
      assert IconNamesOf(lines).value == IconNamesOf(init).value + {name.value};
      forall n ensures n in IconNamesOf(lines).value <==> InImage(lines, FirstWord, Some(n)) {
        InImageStep(lines, FirstWord, Some(n));
      }
    }
  }

  /** Every collected name is a word: non-empty and free of spaces. */
  lemma IconNamesAreWords(lines: seq<string>)
    requires IconNamesOf(lines).Success?
    ensures forall n :: n in IconNamesOf(lines).value ==> n != "" && ' ' !in n
  {
    IconNamesCollectsFirstWords(lines);
    forall n | n in IconNamesOf(lines).value ensures n != "" && ' ' !in n {
      assert InImage(lines, FirstWord, Some(n));
      var k :| 0 <= k < |lines| && FirstWord(lines[k]) == Some(n);
      WordHasNoSpace(lines[k], n);
    }
  }

  /** A first word is non-empty and has no space in it. */
  lemma WordHasNoSpace(line: string, w: string)
    requires FirstWord(line) == Some(w)
    ensures w != "" && ' ' !in w
  {
    FirstWordIsFirst(line);
    assert IsSpace(' ');
  }

  /** `icon_names.difference(ALL_MATERIAL_ICONS)`: the fetched names not yet listed. */
  function NewIconNames(fetched: set<string>, existing: set<string>): (r: set<string>)
    ensures r <= fetched && r !! existing
    ensures fetched <= r + existing
  {
    fetched - existing
  }

  /** `f'"{icon_name}"'` */
  function Quote(name: string): string {
    "\"" + name + "\""
  }

  function QuotedAll(names: seq<string>): (q: seq<string>)
    ensures |q| == |names|
  {
    seq(|names|, i requires 0 <= i < |names| => Quote(names[i]))
  }

  /** `generated_code` for the names listed in `order`. */
  function NamesBlock(order: seq<string>): string {
    StartMarker + "\nALL_MATERIAL_ICONS = {" + Join(QuotedAll(order), ", ") + "}\n" + EndMarker
  }

  /** The end marker occurs in `text` starting at `p`. */
  predicate EndMarkerAt(text: string, p: nat) {
    p + |EndMarker| <= |text| && text[p..p + |EndMarker|] == EndMarker
  }

  /**
   * `NAMES_SET_REGEX`, searched from the first character of `text`, matches all of `text`:
   * it starts with the start marker, ends with the end marker, at least one character lies
   * between them, and the lazy `(.+?)` meets no earlier end marker.
   */
  predicate MatchesMarkersWholly(text: string) {
    && |text| > |StartMarker| + |EndMarker|
    && text[..|StartMarker|] == StartMarker
    && text[|text| - |EndMarker|..] == EndMarker
    && forall p: nat :: |StartMarker| < p < |text| - |EndMarker| ==> !EndMarkerAt(text, p)
  }

  /** Builds the block from the names in ascending order, as `sorted(icon_names)` lists them. */
  method GenerateCode(iconNames: set<string>) returns (code: string)
    ensures exists order :: IsSortedListing(order, iconNames, StrLess) && code == NamesBlock(order)
    ensures (forall n :: n in iconNames ==> ' ' !in n) ==> MatchesMarkersWholly(code)
  {
    StrLessOrders(iconNames);
    var order := SortSet(iconNames, StrLess);
    code := NamesBlock(order);
    forall i | 0 <= i < |order| ensures order[i] in iconNames {
    }
    if forall n :: n in iconNames ==> ' ' !in n {
      BlockMatchesMarkers(order);
    }
  }

  /** No '#' in `s` is directly followed by a space. */
  predicate NoHashSpace(s: string) {
    forall q :: 0 <= q < |s| - 1 ==> s[q] == '#' ==> s[q + 1] != ' '
  }

  lemma NoHashSpaceConcat(x: string, y: string)
    requires NoHashSpace(x) && NoHashSpace(y)
    requires x != [] && y != [] ==> !(x[|x| - 1] == '#' && y[0] == ' ')
    ensures NoHashSpace(x + y)
  {
    var s := x + y;
    forall q | 0 <= q < |s| - 1 && s[q] == '#' ensures s[q + 1] != ' ' {
      if q + 1 < |x| {
        assert s[q] == x[q] && s[q + 1] == x[q + 1];
      } else if q >= |x| {
        assert s[q] == y[q - |x|] && s[q + 1] == y[q + 1 - |x|];
      }
    }
  }

  /** The quoted, comma-separated list has no "# " and, when non-empty, begins and ends with a quote. */
  lemma {:induction false} QuotedListClean(names: seq<string>)
    requires forall i :: 0 <= i < |names| ==> ' ' !in names[i]
    ensures NoHashSpace(Join(QuotedAll(names), ", "))
    ensures |names| > 0 ==>
      var l := Join(QuotedAll(names), ", ");
      |l| >= 2 && l[0] == '"' && l[|l| - 1] == '"'
    decreases |names|
  {
    var parts := QuotedAll(names);
    if |names| > 0 {
      var first := parts[0];
      assert first == Quote(names[0]);
      assert ' ' !in first by {
        forall j | 0 <= j < |first| ensures first[j] != ' ' {
          if 0 < j < |first| - 1 {
            assert first[j] == names[0][j - 1];
          }
        }
      }
      assert NoHashSpace(first);
      if |names| > 1 {
        QuotedListClean(names[1..]);
        assert parts[1..] == QuotedAll(names[1..]);
        var rest := Join(parts[1..], ", ");
        assert Join(parts, ", ") == first + ", " + rest;
        NoHashSpaceConcat(first, ", ");
        NoHashSpaceConcat(first + ", ", rest);
        assert (first + ", " + rest)[0] == first[0];
      }
    }
  }

  /** Everything between the two markers of a generated block. */
  lemma BlockMiddleClean(order: seq<string>)
    requires forall i :: 0 <= i < |order| ==> ' ' !in order[i]
    ensures NoHashSpace("\nALL_MATERIAL_ICONS = {" + Join(QuotedAll(order), ", ") + "}\n")
  {
    var head := "\nALL_MATERIAL_ICONS = {";
    var list := Join(QuotedAll(order), ", ");
    QuotedListClean(order);
    assert '#' !in head;
    assert NoHashSpace(head);
    NoHashSpaceConcat(head, list);
    if list != [] {
      assert (head + list)[|head + list| - 1] == list[|list| - 1];
    }
    NoHashSpaceConcat(head + list, "}\n");
  }

  /** Where the end marker occurs, its third character is '#' and its fourth a space. */
  lemma EndMarkerShape(text: string, p: nat)
    requires EndMarkerAt(text, p)
    ensures text[p + 2] == '#' && text[p + 3] == ' '
  {
    assert text[p..p + |EndMarker|][2] == EndMarker[2];
    assert text[p..p + |EndMarker|][3] == EndMarker[3];
  }

  /** Markers around a non-empty middle without "# " form a whole match of the marker regex. */
  lemma MarkersAroundClean(middle: string)
    requires middle != "" && NoHashSpace(middle)
    ensures MatchesMarkersWholly(StartMarker + middle + EndMarker)
  {
    var text := StartMarker + middle + EndMarker;
    var s := |StartMarker|;
    var m := |middle|;
    assert text[..s] == StartMarker;
    assert text[s + m..] == EndMarker;
    assert EndMarker[..3] == "###";
    forall p: nat | s < p < |text| - |EndMarker| ensures !EndMarkerAt(text, p) {
      if EndMarkerAt(text, p) {
        EndMarkerShape(text, p);
      }
    }
  }

  /** A generated block is found again, whole, by the marker regex on the next run. */
  lemma BlockMatchesMarkers(order: seq<string>)
    requires forall i :: 0 <= i < |order| ==> ' ' !in order[i]
    ensures MatchesMarkersWholly(NamesBlock(order))
  {
    var middle := "\nALL_MATERIAL_ICONS = {" + Join(QuotedAll(order), ", ") + "}\n";
    assert NamesBlock(order) == StartMarker + middle + EndMarker;
    BlockMiddleClean(order);
    MarkersAroundClean(middle);
  }
}
