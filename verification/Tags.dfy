/** The tag picker and its protected tags: public/js/app.js.

Chips are the check boxes in the order in which they are rendered; `preserved` is the
list stashed on the picker element. */
module Tags {

  datatype Tag = Tag(name: string, category: string)
  datatype Chip = Chip(name: string, checked: bool)
  datatype Picker = Picker(cache: seq<Tag>, chips: seq<Chip>, preserved: seq<string>)

  datatype Event = Toggle(i: nat) | AddTag(tag: Tag)

  predicate IsProtected(name: string) { "firewall:" <= name || "region:" <= name }

  function Category(t: Tag): string { if t.category == "" then "General" else t.category }

  function Protected(names: seq<string>): seq<string> {
    if names == [] then []
    else (if IsProtected(names[0]) then [names[0]] else []) + Protected(names[1..])
  }

  // ----- Rendering

  /** The categories of the unprotected tags, each once, before sorting. */
  function Categories(tags: seq<Tag>): (cats: seq<string>)
    ensures forall c :: c in cats <==>
      exists i :: 0 <= i < |tags| && !IsProtected(tags[i].name) && Category(tags[i]) == c
  {
    if tags == [] then []
    else
      var front, last := Categories(tags[..|tags| - 1]), tags[|tags| - 1];
      assert tags == tags[..|tags| - 1] + [last];
      if IsProtected(last.name) || Category(last) in front then front else front + [Category(last)]
  }

  function CategoryChips(tags: seq<Tag>, cat: string, selected: seq<string>): seq<Chip> {
    if tags == [] then []
    else (if !IsProtected(tags[0].name) && Category(tags[0]) == cat
          then [Chip(tags[0].name, tags[0].name in selected)] else [])
         + CategoryChips(tags[1..], cat, selected)
  }

  function AllChips(tags: seq<Tag>, cats: seq<string>, selected: seq<string>): seq<Chip> {
    if cats == [] then [] else CategoryChips(tags, cats[0], selected) + AllChips(tags, cats[1..], selected)
  }

  /** What is assumed of `Array.sort`: it only reorders. */
  ghost predicate Reorders(sort: seq<string> -> seq<string>) {
    forall s :: multiset(sort(s)) == multiset(s)
  }

  /** `_renderTagChips` */
  function RenderChips(tags: seq<Tag>, selected: seq<string>, sort: seq<string> -> seq<string>): seq<Chip> {
    AllChips(tags, sort(Categories(tags)), selected)
  }

  /** `tagFieldHTML` for an editable record. */
  function Open(tags: seq<Tag>, selected: seq<string>, sort: seq<string> -> seq<string>): Picker {
    Picker(tags, RenderChips(tags, selected, sort), Protected(selected))
  }

  // ----- Reading the field

  function Checked(chips: seq<Chip>): seq<string> {
    if chips == [] then []
    else (if chips[0].checked then [chips[0].name] else []) + Checked(chips[1..])
  }

  function Merge(names: seq<string>, preserved: seq<string>): seq<string>
    decreases |preserved|
  {
    if preserved == [] then names
    else Merge(if preserved[0] in names then names else names + [preserved[0]], preserved[1..])
  }

  function FieldValue(p: Picker): seq<string> { Merge(Checked(p.chips), p.preserved) }

  /** `getTagFieldValue` */
  method GetTagFieldValue(p: Picker) returns (value: seq<string>)
    ensures value == FieldValue(p)
  {
    value := [];
    for i := 0 to |p.chips|
      invariant Checked(p.chips) == value + Checked(p.chips[i..])
    {
      if p.chips[i].checked { value := value + [p.chips[i].name]; }
    }
    assert value == Checked(p.chips) && p.preserved[0..] == p.preserved;
    for i := 0 to |p.preserved|
      invariant FieldValue(p) == Merge(value, p.preserved[i..])
    {
      var name := p.preserved[i];
      if name !in value { value := value + [name]; }
    }
  }

  /** A toggled check box, or a tag that the server created from the form. */
  function Step(p: Picker, ev: Event, sort: seq<string> -> seq<string>): Picker {
    match ev
    case Toggle(i) =>
      if i >= |p.chips| then p else p.(chips := p.chips[i := p.chips[i].(checked := !p.chips[i].checked)])
    case AddTag(tag) =>
      var cache := p.cache + [tag];
      p.(cache := cache, chips := RenderChips(cache, FieldValue(p) + [tag.name], sort))
  }

  function Run(p: Picker, evs: seq<Event>, sort: seq<string> -> seq<string>): Picker
    decreases |evs|
  {
    if evs == [] then p else Run(Step(p, evs[0], sort), evs[1..], sort)
  }

  // ----- Protected tags

  predicate Unprotected(chips: seq<Chip>) {
    forall i :: 0 <= i < |chips| ==> !IsProtected(chips[i].name)
  }

  lemma {:induction false} CategoryChipsUnprotected(tags: seq<Tag>, cat: string, selected: seq<string>)
    ensures Unprotected(CategoryChips(tags, cat, selected))
  {
    if tags != [] { CategoryChipsUnprotected(tags[1..], cat, selected); }
  }

  lemma {:induction false} AllChipsUnprotected(tags: seq<Tag>, cats: seq<string>, selected: seq<string>)
    ensures Unprotected(AllChips(tags, cats, selected))
  {
    if cats != [] {
      CategoryChipsUnprotected(tags, cats[0], selected);
      AllChipsUnprotected(tags, cats[1..], selected);
    }
  }

  /** Each name at its first place only. */
  function FirstOnly(names: seq<string>): seq<string> {
    if names == [] then []
    else
      var n := |names| - 1;
      if names[n] in names[..n] then FirstOnly(names[..n]) else FirstOnly(names[..n]) + [names[n]]
  }

  predicate AllUnprotected(names: seq<string>) { forall i :: 0 <= i < |names| ==> !IsProtected(names[i]) }
  predicate AllProtected(names: seq<string>) { forall i :: 0 <= i < |names| ==> IsProtected(names[i]) }

  lemma {:induction false} CheckedUnprotected(chips: seq<Chip>)
    requires Unprotected(chips)
    ensures AllUnprotected(Checked(chips))
  {
    if chips != [] { CheckedUnprotected(chips[1..]); }
  }

  lemma {:induction false} ProtectedIsProtected(names: seq<string>)
    ensures AllProtected(Protected(names))
  {
    if names != [] { ProtectedIsProtected(names[1..]); }
  }

  lemma {:induction false} MergeSnoc(names: seq<string>, preserved: seq<string>, name: string)
    ensures Merge(names, preserved + [name]) ==
      var m := Merge(names, preserved); if name in m then m else m + [name]
    decreases |preserved|
  {
    if preserved == [] {
      assert preserved + [name] == [name] && [name][1..] == [];
    } else {
      assert (preserved + [name])[1..] == preserved[1..] + [name];
      MergeSnoc(if preserved[0] in names then names else names + [preserved[0]], preserved[1..], name);
    }
  }

  /** Merging appends the preserved names, once each, to names that hold none of them. */
  lemma {:induction false} MergeAppends(names: seq<string>, preserved: seq<string>)
    requires AllUnprotected(names) && AllProtected(preserved)
    ensures Merge(names, preserved) == names + FirstOnly(preserved)
    ensures forall x :: x in FirstOnly(preserved) <==> x in preserved
    decreases |preserved|
  {
    if preserved != [] {
      var n := |preserved| - 1;
      var front, last := preserved[..n], preserved[n];
      assert preserved == front + [last];
      MergeAppends(names, front);
      MergeSnoc(names, front, last);
      assert last !in names;
    }
  }

  lemma {:induction false} ProtectedAppend(a: seq<string>, b: seq<string>)
    ensures Protected(a + b) == Protected(a) + Protected(b)
  {
    if a == [] {
      assert a + b == b;
    } else {
      assert (a + b)[1..] == a[1..] + b && (a + b)[0] == a[0];
      ProtectedAppend(a[1..], b);
    }
  }

  lemma {:induction false} ProtectedOfUniform(names: seq<string>)
    ensures AllUnprotected(names) ==> Protected(names) == []
    ensures AllProtected(names) ==> Protected(names) == names
  {
    if names != [] {
      ProtectedOfUniform(names[1..]);
      assert names == [names[0]] + names[1..];
    }
  }

  /** With no protected chip, the saved value is the checked names followed by the preserved
      ones, so its protected part is the preserved list without repeats. */
  lemma SavedProtected(p: Picker)
    requires Unprotected(p.chips) && AllProtected(p.preserved)
    ensures Protected(FieldValue(p)) == FirstOnly(p.preserved)
  {
    hide Checked, Merge, FirstOnly, Protected;
    var checked, kept := Checked(p.chips), FirstOnly(p.preserved);
    CheckedUnprotected(p.chips);
    MergeAppends(checked, p.preserved);
    ProtectedAppend(checked, kept);
    ProtectedOfUniform(checked);
    assert AllProtected(kept) by {
      forall i | 0 <= i < |kept| ensures IsProtected(kept[i]) { assert kept[i] in p.preserved; }
    }
    ProtectedOfUniform(kept);
  }

  lemma {:induction false} RunKeepsPicker(p: Picker, evs: seq<Event>, sort: seq<string> -> seq<string>)
    requires Unprotected(p.chips)
    ensures Unprotected(Run(p, evs, sort).chips) && Run(p, evs, sort).preserved == p.preserved
    decreases |evs|
  {
    if evs != [] {
      if evs[0].AddTag? {
        var cache := p.cache + [evs[0].tag];
        AllChipsUnprotected(cache, sort(Categories(cache)), FieldValue(p) + [evs[0].tag.name]);
      }
      RunKeepsPicker(Step(p, evs[0], sort), evs[1..], sort);
    }
  }

  /** Over any run of toggles and added tags, protected ones included, the protected tags of the
      saved value are exactly those of the original record, in its order. */
  lemma ProtectedTagsSurvive(
      tags: seq<Tag>, selected: seq<string>, evs: seq<Event>, sort: seq<string> -> seq<string>)
    ensures Protected(FieldValue(Run(Open(tags, selected, sort), evs, sort))) == FirstOnly(Protected(selected))
  {
    AllChipsUnprotected(tags, sort(Categories(tags)), selected);
    RunKeepsPicker(Open(tags, selected, sort), evs, sort);
    ProtectedIsProtected(selected);
    SavedProtected(Run(Open(tags, selected, sort), evs, sort));
  }

  // ----- The other tags

  lemma {:induction false} CategoryChipsHold(tags: seq<Tag>, cat: string, selected: seq<string>, name: string)
    ensures name in Checked(CategoryChips(tags, cat, selected)) <==>
      name in selected
      && exists i :: 0 <= i < |tags| && tags[i].name == name && !IsProtected(name) && Category(tags[i]) == cat
  {
    if tags != [] {
      CategoryChipsHold(tags[1..], cat, selected, name);
      var hit := !IsProtected(tags[0].name) && Category(tags[0]) == cat;
      var rest := CategoryChips(tags[1..], cat, selected);
      if hit {
        assert ([Chip(tags[0].name, tags[0].name in selected)] + rest)[1..] == rest;
      } else {
        assert [] + rest == rest;
      }
      if i :| 0 <= i < |tags| && tags[i].name == name && !IsProtected(name) && Category(tags[i]) == cat {
        if i > 0 { assert tags[1..][i - 1] == tags[i]; }
      }
      if i :| 0 <= i < |tags[1..]| && tags[1..][i].name == name && !IsProtected(name) && Category(tags[1..][i]) == cat {
        assert tags[i + 1] == tags[1..][i];
      }
    }
  }

  lemma {:induction false} CheckedAppend(a: seq<Chip>, b: seq<Chip>)
    ensures Checked(a + b) == Checked(a) + Checked(b)
  {
    if a == [] {
      assert a + b == b;
    } else {
      assert (a + b)[1..] == a[1..] + b && (a + b)[0] == a[0];
      CheckedAppend(a[1..], b);
    }
  }

  lemma {:induction false} AllChipsHold(tags: seq<Tag>, cats: seq<string>, selected: seq<string>, name: string)
    ensures name in Checked(AllChips(tags, cats, selected)) <==>
      name in selected
      && exists i :: 0 <= i < |tags| && tags[i].name == name && !IsProtected(name) && Category(tags[i]) in cats
  {
    if cats != [] {
      var first, rest := CategoryChips(tags, cats[0], selected), AllChips(tags, cats[1..], selected);
      CheckedAppend(first, rest);
      CategoryChipsHold(tags, cats[0], selected, name);
      AllChipsHold(tags, cats[1..], selected, name);
      assert forall c :: c in cats <==> c == cats[0] || c in cats[1..];
    }
  }

  predicate Defined(tags: seq<Tag>, name: string) { exists i :: 0 <= i < |tags| && tags[i].name == name }

  /** Rendering checks exactly the selected unprotected tags that are defined. */
  lemma RenderedSelection(tags: seq<Tag>, selected: seq<string>, sort: seq<string> -> seq<string>, name: string)
    requires Reorders(sort)
    ensures name in Checked(RenderChips(tags, selected, sort)) <==>
      name in selected && !IsProtected(name) && Defined(tags, name)
  {
    hide Checked, AllChips, Categories;
    var found := Categories(tags);
    var cats := sort(found);
    AllChipsHold(tags, cats, selected, name);
    assert multiset(cats) == multiset(found);
    forall c ensures c in cats <==> c in found { assert c in cats <==> c in multiset(cats); }
    if !IsProtected(name) && Defined(tags, name) {
      var i :| 0 <= i < |tags| && tags[i].name == name;
      assert Category(tags[i]) in found;
    }
  }

  /** Opening a record and saving it untouched keeps its tags if and only if every unprotected
      one is defined: an undefined tag has no chip and is dropped. */
  lemma UntouchedSaveKeepsTagsIff(tags: seq<Tag>, selected: seq<string>, sort: seq<string> -> seq<string>)
    requires Reorders(sort)
    ensures (forall name :: name in FieldValue(Open(tags, selected, sort)) <==> name in selected)
      <==> forall name :: name in selected && !IsProtected(name) ==> Defined(tags, name)
  {
    hide Checked, Merge, FirstOnly, RenderChips, Defined;
    var p := Open(tags, selected, sort);
    assert Unprotected(p.chips) by { RenderUnprotected(tags, selected, sort); }
    CheckedUnprotected(p.chips);
    ProtectedIsProtected(selected);
    MergeAppends(Checked(p.chips), p.preserved);
    forall name ensures name in FieldValue(p) <==>
      name in selected && (IsProtected(name) || Defined(tags, name))
    {
      RenderedSelection(tags, selected, sort, name);
      InProtected(selected, name);
      assert name in FieldValue(p) <==> name in Checked(p.chips) || name in p.preserved;
    }
  }

  /** A tag that nobody has defined, or whose definition was deleted, is gone after an untouched save. */
  lemma UndefinedTagIsDropped(name: string, sort: seq<string> -> seq<string>)
    requires Reorders(sort) && !IsProtected(name)
    ensures FieldValue(Open([], [name], sort)) == []
  {
    assert Categories([]) == [];
    assert multiset(sort([])) == multiset([]);
    assert |sort([])| == |multiset(sort([]))| == 0;
    assert RenderChips([], [name], sort) == [];
    assert [name][1..] == [] && Protected([name]) == Protected([]);
  }

  lemma RenderUnprotected(tags: seq<Tag>, selected: seq<string>, sort: seq<string> -> seq<string>)
    ensures Unprotected(RenderChips(tags, selected, sort))
  {
    AllChipsUnprotected(tags, sort(Categories(tags)), selected);
  }

  lemma {:induction false} InProtected(names: seq<string>, name: string)
    ensures name in Protected(names) <==> name in names && IsProtected(name)
  {
    if names != [] {
      InProtected(names[1..], name);
      assert name in names <==> name == names[0] || name in names[1..];
    }
  }

  // ----- What is on screen

  function ChipNames(chips: seq<Chip>): seq<string> {
    if chips == [] then [] else [chips[0].name] + ChipNames(chips[1..])
  }

  /** The names that have a chip of their own. */
  function PlainNames(tags: seq<Tag>): seq<string> {
    if tags == [] then []
    else (if IsProtected(tags[0].name) then [] else [tags[0].name]) + PlainNames(tags[1..])
  }

  predicate Distinct(cats: seq<string>) { forall i, j :: 0 <= i < j < |cats| ==> cats[i] != cats[j] }

  lemma {:induction false} CategoriesDistinct(tags: seq<Tag>)
    ensures Distinct(Categories(tags))
  {
    if tags != [] { CategoriesDistinct(tags[..|tags| - 1]); }
  }

  lemma {:induction false} ChipNamesAppend(a: seq<Chip>, b: seq<Chip>)
    ensures ChipNames(a + b) == ChipNames(a) + ChipNames(b)
  {
    if a == [] {
      assert a + b == b;
    } else {
      assert (a + b)[1..] == a[1..] + b && (a + b)[0] == a[0];
      ChipNamesAppend(a[1..], b);
    }
  }

  /** One more tag adds its chip to its category, once. */
  lemma {:induction false} OneMoreTag(tag: Tag, tags: seq<Tag>, cats: seq<string>, selected: seq<string>)
    requires Distinct(cats)
    ensures multiset(ChipNames(AllChips([tag] + tags, cats, selected))) ==
      multiset(ChipNames(AllChips(tags, cats, selected)))
      + if !IsProtected(tag.name) && Category(tag) in cats then multiset{tag.name} else multiset{}
    decreases |cats|
  {
    hide ChipNames, Category, IsProtected, CategoryChips;
    if cats != [] {
      var more, cat := [tag] + tags, cats[0];
      OneMoreTag(tag, tags, cats[1..], selected);
      OneMoreChip(tag, tags, cat, selected);
      FirstCategory(tags, cats, selected);
      FirstCategory(more, cats, selected);
      assert Category(tag) in cats <==> Category(tag) == cat || Category(tag) in cats[1..];
      assert cat !in cats[1..];
    } else {
      NoChips();
    }
  }

  lemma FirstCategory(tags: seq<Tag>, cats: seq<string>, selected: seq<string>)
    requires cats != []
    ensures multiset(ChipNames(AllChips(tags, cats, selected))) ==
      multiset(ChipNames(CategoryChips(tags, cats[0], selected)))
      + multiset(ChipNames(AllChips(tags, cats[1..], selected)))
  {
    hide ChipNames, CategoryChips;
    ChipNamesAppend(CategoryChips(tags, cats[0], selected), AllChips(tags, cats[1..], selected));
  }

  lemma NoChips()
    ensures ChipNames([]) == []
  {
  }

  lemma OneMoreChip(tag: Tag, tags: seq<Tag>, cat: string, selected: seq<string>)
    ensures multiset(ChipNames(CategoryChips([tag] + tags, cat, selected))) ==
      multiset(ChipNames(CategoryChips(tags, cat, selected)))
      + if !IsProtected(tag.name) && Category(tag) == cat then multiset{tag.name} else multiset{}
  {
    assert ([tag] + tags)[1..] == tags;
    var rest := CategoryChips(tags, cat, selected);
    if !IsProtected(tag.name) && Category(tag) == cat {
      var chip := Chip(tag.name, tag.name in selected);
      assert ([chip] + rest)[1..] == rest;
      assert ChipNames([chip] + rest) == [tag.name] + ChipNames(rest);
    } else {
      assert [] + rest == rest;
    }
  }

  lemma {:induction false} AllChipsNames(tags: seq<Tag>, cats: seq<string>, selected: seq<string>)
    requires Distinct(cats) && forall i :: 0 <= i < |tags| && !IsProtected(tags[i].name) ==> Category(tags[i]) in cats
    ensures multiset(ChipNames(AllChips(tags, cats, selected))) == multiset(PlainNames(tags))
    decreases |tags|
  {
    hide ChipNames, Category, IsProtected;
    if tags == [] {
      NothingRendered(cats, selected);
    } else {
      assert tags == [tags[0]] + tags[1..];
      OneMoreTag(tags[0], tags[1..], cats, selected);
      AllChipsNames(tags[1..], cats, selected);
    }
  }

  lemma {:induction false} NothingRendered(cats: seq<string>, selected: seq<string>)
    ensures AllChips([], cats, selected) == [] && ChipNames([]) == []
    decreases |cats|
  {
    if cats != [] { NothingRendered(cats[1..], selected); }
  }

  /** Every defined tag without a protected prefix gets its chip, once for each definition, and no other tag
      does. */
  lemma EveryTagHasItsChip(tags: seq<Tag>, selected: seq<string>, sort: seq<string> -> seq<string>)
    requires Reorders(sort)
    ensures multiset(ChipNames(RenderChips(tags, selected, sort))) == multiset(PlainNames(tags))
  {
    hide ChipNames, PlainNames, AllChips;
    var found := Categories(tags);
    var cats := sort(found);
    CategoriesDistinct(tags);
    assert multiset(cats) == multiset(found);
    ReorderedDistinct(found, cats);
    forall i | 0 <= i < |tags| && !IsProtected(tags[i].name) ensures Category(tags[i]) in cats {
      assert Category(tags[i]) in found;
      assert Category(tags[i]) in multiset(cats);
    }
    AllChipsNames(tags, cats, selected);
  }

  /** The unprotected names of the tags in some of the categories; a tag without one is in "General". */
  function NamesIn(tags: seq<Tag>, cats: seq<string>): seq<string> {
    if tags == [] then []
    else
      var cat := if |tags[0].category| == 0 then "General" else tags[0].category;
      (if cat in cats && !IsProtected(tags[0].name) then [tags[0].name] else []) + NamesIn(tags[1..], cats)
  }

  lemma {:induction false} ChipsOfCategories(tags: seq<Tag>, cats: seq<string>, selected: seq<string>)
    requires Distinct(cats)
    ensures multiset(ChipNames(AllChips(tags, cats, selected))) == multiset(NamesIn(tags, cats))
    decreases |tags|
  {
    hide ChipNames, IsProtected;
    if tags == [] {
      NothingRendered(cats, selected);
    } else {
      assert tags == [tags[0]] + tags[1..];
      OneMoreTag(tags[0], tags[1..], cats, selected);
      ChipsOfCategories(tags[1..], cats, selected);
    }
  }

  lemma {:induction false} AllChipsSplit(tags: seq<Tag>, cats: seq<string>, k: nat, selected: seq<string>)
    requires k <= |cats|
    ensures AllChips(tags, cats, selected) == AllChips(tags, cats[..k], selected) + AllChips(tags, cats[k..], selected)
    decreases k
  {
    if k > 0 {
      hide CategoryChips;
      AllChipsSplit(tags, cats[1..], k - 1, selected);
      assert cats[..k][1..] == cats[1..][..k - 1] && cats[1..][k - 1..] == cats[k..];
    } else {
      assert cats[..0] == [] && cats[0..] == cats;
    }
  }

  /** Chips are grouped by category, in the sorted order: the chips in front are those of the first k
      categories, whatever k is. */
  lemma ChipsByCategory(tags: seq<Tag>, selected: seq<string>, sort: seq<string> -> seq<string>, k: nat)
    returns (n: nat)
    requires Reorders(sort) && k <= |sort(Categories(tags))|
    ensures n <= |RenderChips(tags, selected, sort)|
    ensures multiset(ChipNames(RenderChips(tags, selected, sort)[..n])) ==
      multiset(NamesIn(tags, sort(Categories(tags))[..k]))
  {
    hide AllChips, ChipNames, NamesIn;
    var found := Categories(tags);
    var cats := sort(found);
    CategoriesDistinct(tags);
    assert multiset(cats) == multiset(found);
    ReorderedDistinct(found, cats);
    var front := AllChips(tags, cats[..k], selected);
    n := |front|;
    AllChipsSplit(tags, cats, k, selected);
    assert RenderChips(tags, selected, sort)[..n] == front;
    ChipsOfCategories(tags, cats[..k], selected);
  }

  lemma ReorderedDistinct(a: seq<string>, b: seq<string>)
    requires Distinct(a) && multiset(a) == multiset(b)
    ensures Distinct(b)
  {
    CountsOne(a);
    forall i, j | 0 <= i < j < |b| ensures b[i] != b[j] { CountsTwice(b, i, j); }
  }

  lemma CountsTwice(b: seq<string>, i: nat, j: nat)
    requires i < j < |b|
    ensures b[i] == b[j] ==> multiset(b)[b[i]] >= 2
  {
    assert b == b[..i] + [b[i]] + b[i + 1..j] + [b[j]] + b[j + 1..];
  }

  lemma {:induction false} CountsOne(a: seq<string>)
    requires Distinct(a)
    ensures forall x :: multiset(a)[x] <= 1
  {
    if a != [] {
      var n := |a| - 1;
      assert a == a[..n] + [a[n]];
      CountsOne(a[..n]);
      assert a[n] !in a[..n];
    }
  }

  /** A chip that is clicked flips, and nothing else changes. */
  lemma ToggleMeans(p: Picker, i: nat, sort: seq<string> -> seq<string>, j: nat)
    requires i < |p.chips|
    ensures
      var q := Step(p, Toggle(i), sort);
      && q.cache == p.cache && q.preserved == p.preserved && |q.chips| == |p.chips|
      && q.chips[i].name == p.chips[i].name && q.chips[i].checked == !p.chips[i].checked
      && (j < |p.chips| && j != i ==> q.chips[j] == p.chips[j])
  {
  }

  /** Every chip stands for a defined tag without a protected prefix, and what is preserved is protected. */
  ghost predicate Consistent(p: Picker) {
    Unprotected(p.chips) && AllProtected(p.preserved) && AllDefined(p.cache, p.chips)
  }

  ghost predicate AllDefined(tags: seq<Tag>, chips: seq<Chip>) {
    forall i :: 0 <= i < |chips| ==> Defined(tags, chips[i].name)
  }

  /** A tag added from the form: the boxes that were checked stay checked, the new one is checked too unless
      its prefix is protected, and no other is. */
  lemma AddTagMeans(p: Picker, tag: Tag, sort: seq<string> -> seq<string>, name: string)
    requires Reorders(sort) && Consistent(p)
    ensures
      var q := Step(p, AddTag(tag), sort);
      && q.cache == p.cache + [tag] && q.preserved == p.preserved && Consistent(q)
      && (name in Checked(q.chips) <==>
            name in Checked(p.chips) || (name == tag.name && !IsProtected(name)))
  {
    hide Checked, Merge, FirstOnly, RenderChips, Defined;
    var cache, selected := p.cache + [tag], FieldValue(p) + [tag.name];
    var q := Step(p, AddTag(tag), sort);
    RenderedSelection(cache, selected, sort, name);
    CheckedUnprotected(p.chips);
    MergeAppends(Checked(p.chips), p.preserved);
    StaysDefined(p.cache, tag, name);
    RenderUnprotected(cache, selected, sort);
    RenderedDefined(cache, selected, sort);
    if name in Checked(p.chips) { CheckedHasChip(p.chips, name); }
  }

  lemma StaysDefined(cache: seq<Tag>, tag: Tag, name: string)
    ensures Defined(cache + [tag], name) <==> Defined(cache, name) || name == tag.name
  {
    if i :| 0 <= i < |cache| && cache[i].name == name { assert (cache + [tag])[i].name == name; }
    assert (cache + [tag])[|cache|] == tag;
  }

  lemma {:induction false} CheckedHasChip(chips: seq<Chip>, name: string)
    requires name in Checked(chips)
    ensures exists i :: 0 <= i < |chips| && chips[i].name == name
  {
    if chips[0].checked && chips[0].name == name {
      assert chips[0].name == name;
    } else {
      CheckedHasChip(chips[1..], name);
      var i :| 0 <= i < |chips[1..]| && chips[1..][i].name == name;
      assert chips[i + 1].name == name;
    }
  }

  lemma RenderedDefined(tags: seq<Tag>, selected: seq<string>, sort: seq<string> -> seq<string>)
    ensures AllDefined(tags, RenderChips(tags, selected, sort))
  {
    AllChipsDefined(tags, sort(Categories(tags)), selected);
  }

  lemma {:induction false} AllChipsDefined(tags: seq<Tag>, cats: seq<string>, selected: seq<string>)
    ensures AllDefined(tags, AllChips(tags, cats, selected))
    decreases |cats|
  {
    if cats != [] {
      CategoryChipsDefined(tags, cats[0], selected);
      AllChipsDefined(tags, cats[1..], selected);
    }
  }

  lemma {:induction false} CategoryChipsDefined(tags: seq<Tag>, cat: string, selected: seq<string>)
    ensures AllDefined(tags, CategoryChips(tags, cat, selected))
    decreases |tags|
  {
    if tags != [] {
      CategoryChipsDefined(tags[1..], cat, selected);
      var rest, chips := CategoryChips(tags[1..], cat, selected), CategoryChips(tags, cat, selected);
      forall i | 0 <= i < |chips| ensures Defined(tags, chips[i].name) {
        var k := i - (|chips| - |rest|);
        if k < 0 {
          assert tags[0].name == chips[i].name;
        } else {
          assert chips[i] == rest[k];
          assert Defined(tags[1..], rest[k].name);
          DefinedInTail(tags, rest[k].name);
        }
      }
    }
  }

  lemma DefinedInTail(tags: seq<Tag>, name: string)
    requires tags != [] && Defined(tags[1..], name)
    ensures Defined(tags, name)
  {
    var j :| 0 <= j < |tags[1..]| && tags[1..][j].name == name;
    assert tags[j + 1].name == name;
  }

  /** An opened picker is consistent, and so is it after any run. */
  lemma {:induction false} RunsAreConsistent(p: Picker, evs: seq<Event>, sort: seq<string> -> seq<string>)
    requires Reorders(sort) && Consistent(p)
    ensures Consistent(Run(p, evs, sort))
    decreases |evs|
  {
    hide Consistent, Step;
    if evs != [] {
      if evs[0].AddTag? { AddTagMeans(p, evs[0].tag, sort, ""); } else { ToggleConsistent(p, evs[0].i, sort); }
      RunsAreConsistent(Step(p, evs[0], sort), evs[1..], sort);
    }
  }

  lemma ToggleConsistent(p: Picker, i: nat, sort: seq<string> -> seq<string>)
    requires Consistent(p)
    ensures Consistent(Step(p, Toggle(i), sort))
  {
    var q := Step(p, Toggle(i), sort);
    assert forall j :: 0 <= j < |p.chips| ==> q.chips[j].name == p.chips[j].name;
  }

  lemma OpenIsConsistent(tags: seq<Tag>, selected: seq<string>, sort: seq<string> -> seq<string>)
    ensures Consistent(Open(tags, selected, sort))
  {
    hide RenderChips, Defined;
    RenderUnprotected(tags, selected, sort);
    ProtectedIsProtected(selected);
    RenderedDefined(tags, selected, sort);
  }
}
