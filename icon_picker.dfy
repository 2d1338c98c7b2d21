/** The icon picker: the filter over the listed icons, the cap on what is
    shown, the sorted library buttons and the open/close state. */
module IconPicker {

  import opened Wrappers
  import Icons

  // ---------------------------------------------------------------- filtering

  /** `toLowerCase` on ASCII letters. */
  function LowerChar(c: char): char {
    if 'A' <= c <= 'Z' then (c as int + 32) as char else c
  }

  function Lower(s: string): (r: string)
    ensures |r| == |s| && forall i | 0 <= i < |s| :: r[i] == LowerChar(s[i])
  {
    if s == [] then [] else [LowerChar(s[0])] + Lower(s[1..])
  }

  predicate OccursAt(s: string, part: string, i: nat) {
    i + |part| <= |s| && s[i..i + |part|] == part
  }

  /** `s.includes(part)`. */
  predicate Includes(s: string, part: string) {
    exists i: nat | i <= |s| :: OccursAt(s, part, i)
  }

  /** The picker's test for one icon: the search term (any case) occurs in
      the name, and the name starts with the chosen library. An empty term
      and no library let everything through. */
  predicate Matches(icon: string, term: string, library: Option<string>) {
    (term == "" || Includes(Lower(icon), Lower(term)))
    && (library.None? || Icons.StartsWith(icon, library.value))
  }

  /** `filteredIcons`. */
  function Filtered(icons: seq<string>, term: string, library: Option<string>): (r: seq<string>)
    ensures forall x :: x in r <==> x in icons && Matches(x, term, library)
    ensures Icons.IsSubsequence(r, icons)
  {
    if icons == [] then []
    else if Matches(icons[0], term, library) then [icons[0]] + Filtered(icons[1..], term, library)
    else
      var r := Filtered(icons[1..], term, library);
      assert r == [] || r[0] != icons[0];
      r
  }

  const MaxShown: nat := 100

  /** `displayedIcons`: the first hundred matches. */
  function Displayed(filtered: seq<string>): (r: seq<string>)
    ensures |r| <= MaxShown && r <= filtered
    ensures |filtered| <= MaxShown ==> r == filtered
    ensures |filtered| > MaxShown ==> |r| == MaxShown
  {
    if |filtered| <= MaxShown then filtered else filtered[..MaxShown]
  }

  /** "Mostrando 100 de N ícones" is shown. */
  predicate ShowsCountNote(filtered: seq<string>) { |filtered| > MaxShown }

  /** "Nenhum ícone encontrado" is shown. */
  predicate ShowsNoneFound(filtered: seq<string>) { |Displayed(filtered)| == 0 }

  /** The count note appears exactly when matches are hidden, and the empty
      note exactly when nothing matched. */
  lemma NotesMeaning(filtered: seq<string>)
    ensures ShowsCountNote(filtered) <==> |Displayed(filtered)| < |filtered|
    ensures ShowsNoneFound(filtered) <==> filtered == []
  {
    if filtered != [] && |filtered| <= MaxShown {
      assert Displayed(filtered)[0] == filtered[0];
    }
  }

  /** With no search term and no library every listed icon passes, in order. */
  lemma {:induction false} NoFilterKeepsAll(icons: seq<string>)
    ensures Filtered(icons, "", None) == icons
  {
    if icons != [] {
      NoFilterKeepsAll(icons[1..]);
    }
  }

  /** The search ignores case: a term and its lower-case form select the
      same icons. */
  lemma {:induction false} SearchIgnoresCase(icons: seq<string>, term: string, library: Option<string>)
    ensures Filtered(icons, term, library) == Filtered(icons, Lower(term), library)
  {
    assert Lower(Lower(term)) == Lower(term) by {
      forall i | 0 <= i < |term| ensures Lower(Lower(term))[i] == Lower(term)[i] { }
    }
    assert (term == "") == (Lower(term) == "");
    if icons != [] {
      SearchIgnoresCase(icons[1..], term, library);
    }
  }

  /** Under the listing as written, choosing the "Vsc" library shows nothing,
      whatever the registry and the search term. */
  lemma VscFilterShowsNothing(registry: Icons.Entries, term: string)
    ensures Filtered(Icons.AvailableIconsAsWritten(registry), term, Some("Vsc")) == []
  {
    var r := Filtered(Icons.AvailableIconsAsWritten(registry), term, Some("Vsc"));
    if r != [] {
      assert r[0] in r;
      Icons.VscIconsNeverListed(registry, r[0]);
    }
  }

  /** Under the intended listing, choosing "Vsc" shows every "Vsc" icon of
      the registry that matches the search. */
  lemma VscFilterShowsVscIcons(registry: Icons.Entries, term: string, key: string)
    requires key in Icons.Keys(registry) && Icons.StartsWith(key, "Vsc") && Matches(key, term, None)
    ensures key in Filtered(Icons.AvailableIcons(registry), term, Some("Vsc"))
  {
    Icons.ListingKeepsLibraryKeys(registry, key);
  }

  // ---------------------------------------------------------------- library buttons

  /** The default `Array.prototype.sort` order on strings of code units. */
  predicate LessEq(a: string, b: string) {
    a == [] || (b != [] && (a[0] < b[0] || (a[0] == b[0] && LessEq(a[1..], b[1..]))))
  }

  lemma {:induction false} LessEqTotal(a: string, b: string)
    ensures LessEq(a, b) || LessEq(b, a)
  {
    if a != [] && b != [] && a[0] == b[0] {
      LessEqTotal(a[1..], b[1..]);
    }
  }

  predicate Sorted(s: seq<string>) {
    forall i | 0 <= i < |s| - 1 :: LessEq(s[i], s[i + 1])
  }

  function Insert(x: string, s: seq<string>): (r: seq<string>)
    requires Sorted(s)
    ensures Sorted(r) && multiset(r) == multiset(s) + multiset{x}
    ensures |r| == |s| + 1 && (r[0] == x || (s != [] && r[0] == s[0]))
  {
    if s == [] || LessEq(x, s[0]) then [x] + s
    else
      assert Sorted(s[1..]) by {
        forall i | 0 <= i < |s[1..]| - 1 ensures LessEq(s[1..][i], s[1..][i + 1]) {
          assert s[1..][i] == s[i + 1] && s[1..][i + 1] == s[i + 2];
        }
      }
      var t := Insert(x, s[1..]);
      LessEqTotal(x, s[0]);
      assert s == [s[0]] + s[1..];
      [s[0]] + t
  }

  function Sort(s: seq<string>): (r: seq<string>)
    ensures Sorted(r) && multiset(r) == multiset(s)
  {
    if s == [] then []
    else
      assert s == [s[0]] + s[1..];
      Insert(s[0], Sort(s[1..]))
  }

  /** `libraryOptions`. */
  function LibraryOptions(): seq<string> {
    Sort(Icons.LibraryNames)
  }

  lemma {:induction false} SortKeepsSorted(s: seq<string>)
    requires Sorted(s)
    ensures Sort(s) == s
  {
    if s != [] {
      assert Sorted(s[1..]) by {
        forall i | 0 <= i < |s[1..]| - 1 ensures LessEq(s[1..][i], s[1..][i + 1]) {
          assert s[1..][i] == s[i + 1] && s[1..][i + 1] == s[i + 2];
        }
      }
      SortKeepsSorted(s[1..]);
      assert s == [s[0]] + s[1..];
    }
  }

  /** The library names are declared in sorted order, so the buttons list
      them as declared, all twenty-five, each once. */
  lemma LibraryOptionsAsDeclared()
    ensures LibraryOptions() == Icons.LibraryNames
    ensures |LibraryOptions()| == 25
  {
    LibraryNamesSorted();
    SortKeepsSorted(Icons.LibraryNames);
  }

  /** Two sorted lists, the first ending no later than the second starts. */
  lemma SortedAppend(a: seq<string>, b: seq<string>)
    requires Sorted(a) && Sorted(b) && a != [] && b != [] && LessEq(a[|a| - 1], b[0])
    ensures Sorted(a + b)
  {
    var s := a + b;
    forall i | 0 <= i < |s| - 1 ensures LessEq(s[i], s[i + 1]) {
      if i < |a| - 1 {
        assert s[i] == a[i] && s[i + 1] == a[i + 1];
      } else if i == |a| - 1 {
        assert s[i] == a[|a| - 1] && s[i + 1] == b[0];
      } else {
        assert s[i] == b[i - |a|] && s[i + 1] == b[i - |a| + 1];
      }
    }
  }

  lemma SortedFive(a: string, b: string, c: string, d: string, e: string)
    requires LessEq(a, b) && LessEq(b, c) && LessEq(c, d) && LessEq(d, e)
    ensures Sorted([a, b, c, d, e])
  {
  }

  /** A name ordered before another by its first or second letter, or a
      two-letter name before its longer extension. */
  lemma NameBefore(a: string, b: string)
    requires |a| >= 2 && |b| >= 2
    requires a[0] < b[0] || (a[0] == b[0] && (a[1] < b[1] || (a[1] == b[1] && |a| == 2)))
    ensures LessEq(a, b)
  {
    if a[0] == b[0] {
      assert LessEq(a[1..], b[1..]) by {
        if a[1] == b[1] {
          assert a[1..][1..] == [];
        }
      }
    }
  }

  /** The declared names in five runs of five, each run sorted and each run
      ending before the next begins. */
  lemma RunsSorted()
    ensures Sorted(["Ai", "Bi", "Bs", "Ci", "Fa"]) && Sorted(["Fa6", "Fi", "Gi", "Go", "Gr"])
    ensures Sorted(["Hi", "Hi2", "Im", "Io", "Io5"]) && Sorted(["Lu", "Md", "Pi", "Ri", "Si"])
    ensures Sorted(["Sl", "Tb", "Ti", "Vsc", "Wi"])
    ensures LessEq("Fa", "Fa6") && LessEq("Gr", "Hi") && LessEq("Io5", "Lu") && LessEq("Si", "Sl")
  {
    NameBefore("Ai", "Bi"); NameBefore("Bi", "Bs"); NameBefore("Bs", "Ci"); NameBefore("Ci", "Fa");
    NameBefore("Fa", "Fa6");
    NameBefore("Fa6", "Fi"); NameBefore("Fi", "Gi"); NameBefore("Gi", "Go"); NameBefore("Go", "Gr");
    NameBefore("Gr", "Hi");
    NameBefore("Hi", "Hi2"); NameBefore("Hi2", "Im"); NameBefore("Im", "Io"); NameBefore("Io", "Io5");
    NameBefore("Io5", "Lu");
    NameBefore("Lu", "Md"); NameBefore("Md", "Pi"); NameBefore("Pi", "Ri"); NameBefore("Ri", "Si");
    NameBefore("Si", "Sl");
    NameBefore("Sl", "Tb"); NameBefore("Tb", "Ti"); NameBefore("Ti", "Vsc"); NameBefore("Vsc", "Wi");
    SortedFive("Ai", "Bi", "Bs", "Ci", "Fa");
    SortedFive("Fa6", "Fi", "Gi", "Go", "Gr");
    SortedFive("Hi", "Hi2", "Im", "Io", "Io5");
    SortedFive("Lu", "Md", "Pi", "Ri", "Si");
    SortedFive("Sl", "Tb", "Ti", "Vsc", "Wi");
  }

  lemma LibraryNamesSorted()
    ensures Sorted(Icons.LibraryNames)
  {
    var g1, g2, g3 := ["Ai", "Bi", "Bs", "Ci", "Fa"], ["Fa6", "Fi", "Gi", "Go", "Gr"], ["Hi", "Hi2", "Im", "Io", "Io5"];
    var g4, g5 := ["Lu", "Md", "Pi", "Ri", "Si"], ["Sl", "Tb", "Ti", "Vsc", "Wi"];
    RunsSorted();
    var t4 := g4 + g5;
    SortedAppend(g4, g5);
    var t3 := g3 + t4;
    SortedAppend(g3, t4);
    var t2 := g2 + t3;
    SortedAppend(g2, t3);
    var t1 := g1 + t2;
    SortedAppend(g1, t2);
    assert Icons.LibraryNames == t1;
  }

  // ---------------------------------------------------------------- the component

  class Picker {
    /** `availableIcons`. */
    const icons: seq<string>
    var isOpen: bool
    var searchTerm: string
    var selectedLibrary: Option<string>

    /** A closed picker has its filters reset. */
    ghost predicate Valid()
      reads this
    {
      !isOpen ==> searchTerm == "" && selectedLibrary.None?
    }

    function FilteredIcons(): seq<string>
      reads this
    {
      Filtered(icons, searchTerm, selectedLibrary)
    }

    function DisplayedIcons(): seq<string>
      reads this
    {
      Displayed(FilteredIcons())
    }

    constructor(icons: seq<string>)
      ensures this.icons == icons && !isOpen && Valid()
    {
      this.icons := icons;
      isOpen := false;
      searchTerm := "";
      selectedLibrary := None;
    }

    /** Closing resets the search and the library. */
    method Close()
      modifies this
      ensures !isOpen && searchTerm == "" && selectedLibrary == None && Valid()
    {
      isOpen := false;
      searchTerm := "";
      selectedLibrary := None;
    }

    /** The trigger button. */
    method Toggle()
      requires Valid()
      modifies this
      ensures isOpen == !old(isOpen) && Valid()
      ensures isOpen ==> searchTerm == "" && selectedLibrary == None
      ensures isOpen ==> DisplayedIcons() == Displayed(icons)
    {
      if isOpen {
        Close();
      } else {
        isOpen := true;
        NoFilterKeepsAll(icons);
      }
    }

    /** A mouse press outside the picker closes it; while closed nothing
        listens. */
    method ClickOutside()
      requires Valid()
      modifies this
      ensures !isOpen && Valid()
      ensures !old(isOpen) ==> unchanged(this)
    {
      if isOpen {
        Close();
      }
    }

    /** Typing in the search box, which exists only while open. */
    method SetSearchTerm(term: string)
      requires isOpen
      modifies this
      ensures isOpen && searchTerm == term && selectedLibrary == old(selectedLibrary) && Valid()
      ensures forall x :: x in FilteredIcons() <==> x in icons && Matches(x, term, selectedLibrary)
    {
      searchTerm := term;
    }

    /** "Todos" (`None`) or one of the library buttons, which show the
        library names (see `LibraryOptionsAsDeclared`). */
    method SelectLibrary(library: Option<string>)
      requires isOpen && (library.None? || library.value in Icons.LibraryNames)
      modifies this
      ensures isOpen && selectedLibrary == library && searchTerm == old(searchTerm) && Valid()
      ensures forall x :: x in FilteredIcons() <==> x in icons && Matches(x, searchTerm, library)
    {
      selectedLibrary := library;
    }

    /** Clicking a shown icon reports its name to `onChange` and closes. */
    method SelectIcon(name: string) returns (chosen: string)
      requires isOpen && name in DisplayedIcons()
      modifies this
      ensures chosen == name && chosen in icons
      ensures !isOpen && searchTerm == "" && selectedLibrary == None && Valid()
    {
      assert name in FilteredIcons();
      chosen := name;
      Close();
    }
  }
}
