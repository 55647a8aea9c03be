/**
 * The data logic of the `Timeline` component: flattening the category
 * buckets into one project list tagged with the bucket name, filtering it
 * by the selected category, the list of category names, the project-count
 * label and the strings the cards show (CSS slugs and fallbacks).
 */
module Timeline {
  import opened Wrappers
  import opened JsText
  import opened Records
  import Categorize

  type Item = Record

  /** The `categories` prop: the object's entries, bucket name then items, in key order. */
  type Entries = seq<(string, seq<Item>)>

  const CATEGORY_KEY := "category"
  const ALL := "Todos"

  /** `{ ...item, category: name }`: copy the item and set (or overwrite) its `category`. */
  function TagItem(item: Item, name: string): Item {
    Put(item, CATEGORY_KEY, name)
  }

  /** `items.map(item => ({ ...item, category: name }))` */
  function Tag(items: seq<Item>, name: string): (r: seq<Item>)
    ensures |r| == |items|
    ensures forall i :: 0 <= i < |r| ==> Get(r[i], CATEGORY_KEY) == Some(name)
    ensures forall i, k :: 0 <= i < |r| && k != CATEGORY_KEY ==> Get(r[i], k) == Get(items[i], k)
  {
    seq(|items|, i requires 0 <= i < |items| => TagItem(items[i], name))
  }

  /** The concatenation of every bucket, tagged, in key order. */
  function Flatten(entries: Entries): seq<Item>
    decreases |entries|
  {
    if entries == [] then []
    else
      var n := |entries| - 1;
      Flatten(entries[..n]) + Tag(entries[n].1, entries[n].0)
  }

  /** `allProjects`: the `forEach` that grows `projects` one bucket at a time. */
  method AllProjects(categories: Option<Entries>) returns (projects: seq<Item>)
    ensures categories.None? ==> projects == []
    ensures categories.Some? ==> projects == Flatten(categories.value)
  {
    if categories.None? {
      return [];
    }
    var entries := categories.value;
    projects := [];
    for i := 0 to |entries|
      invariant projects == Flatten(entries[..i])
    {
      assert entries[..i + 1][..i] == entries[..i];
      var (categoryName, items) := entries[i];
      projects := projects + Tag(items, categoryName);
    }
    assert entries[..|entries|] == entries;
  }

  /** The total number of items over all buckets. */
  function SumLengths(entries: Entries): nat
    decreases |entries|
  {
    if entries == [] then 0 else SumLengths(entries[..|entries| - 1]) + |entries[|entries| - 1].1|
  }

  /** Flattening neither drops nor adds an item. */
  lemma {:induction false} FlattenLength(entries: Entries)
    ensures |Flatten(entries)| == SumLengths(entries)
    decreases |entries|
  {
    if entries != [] {
      FlattenLength(entries[..|entries| - 1]);
    }
  }

  /** `allProjects.filter(project => project.category === name)` */
  function ByCategory(all: seq<Item>, name: string): (r: seq<Item>)
    ensures |r| <= |all|
    ensures forall p :: p in r <==> p in all && Get(p, CATEGORY_KEY) == Some(name)
    decreases |all|
  {
    if all == [] then []
    else
      var rest := ByCategory(all[1..], name);
      assert forall p :: p in all <==> p == all[0] || p in all[1..];
      if Get(all[0], CATEGORY_KEY) == Some(name) then [all[0]] + rest else rest
  }

  /** `filteredProjects`: everything for `Todos`, otherwise the items of the selected category. */
  function FilteredProjects(all: seq<Item>, selected: string): (r: seq<Item>)
    ensures selected == ALL ==> r == all
    ensures selected != ALL ==> forall p :: p in r <==> p in all && Get(p, CATEGORY_KEY) == Some(selected)
  {
    if selected == ALL then all else ByCategory(all, selected)
  }

  /** Filtering by the same category a second time changes nothing. */
  lemma {:induction false} ByCategoryIdempotent(all: seq<Item>, name: string)
    ensures ByCategory(ByCategory(all, name), name) == ByCategory(all, name)
    decreases |all|
  {
    if all != [] {
      ByCategoryIdempotent(all[1..], name);
      var rest := ByCategory(all[1..], name);
      if Get(all[0], CATEGORY_KEY) == Some(name) {
        assert ([all[0]] + rest)[1..] == rest;
      }
    }
  }

  /** Filtering a concatenation filters each part. */
  lemma {:induction false} ByCategoryAppend(a: seq<Item>, b: seq<Item>, name: string)
    ensures ByCategory(a + b, name) == ByCategory(a, name) + ByCategory(b, name)
    decreases |a|
  {
    if a == [] {
      assert a + b == b;
    } else {
      assert (a + b)[0] == a[0];
      assert (a + b)[1..] == a[1..] + b;
      ByCategoryAppend(a[1..], b, name);
    }
  }

  /** A tagged bucket passes the filter for its own name whole, and nothing of it passes any other. */
  lemma {:induction false} ByCategoryTag(items: seq<Item>, bucket: string, name: string)
    ensures ByCategory(Tag(items, bucket), name) == if bucket == name then Tag(items, bucket) else []
    decreases |items|
  {
    if items != [] {
      var t := Tag(items, bucket);
      assert t[1..] == Tag(items[1..], bucket);
      assert t[0] == TagItem(items[0], bucket);
      ByCategoryTag(items[1..], bucket, name);
      if bucket == name {
        assert t == [t[0]] + t[1..];
      }
    }
  }

  predicate DistinctNames(entries: Entries) {
    forall i, j :: 0 <= i < j < |entries| ==> entries[i].0 != entries[j].0
  }

  /**
   * Selecting a category name shows exactly that bucket, tagged, in its own
   * order (the tag overrides any `category` field the items had); a name no
   * bucket has shows nothing.
   */
  lemma {:induction false} FilterSelectsBucket(entries: Entries, k: nat)
    requires DistinctNames(entries)
    requires k < |entries|
    ensures ByCategory(Flatten(entries), entries[k].0) == Tag(entries[k].1, entries[k].0)
    decreases |entries|
  {
    var n := |entries| - 1;
    var p := entries[..n];
    var name := entries[k].0;
    ByCategoryAppend(Flatten(p), Tag(entries[n].1, entries[n].0), name);
    ByCategoryTag(entries[n].1, entries[n].0, name);
    if k < n {
      assert p[k] == entries[k];
      FilterSelectsBucket(p, k);
    } else {
      FilterMissingName(p, name);
    }
  }

  /** No item of the flattened list carries a name that no bucket has. */
  lemma {:induction false} FilterMissingName(entries: Entries, name: string)
    requires forall i :: 0 <= i < |entries| ==> entries[i].0 != name
    ensures ByCategory(Flatten(entries), name) == []
    decreases |entries|
  {
    if entries != [] {
      var n := |entries| - 1;
      FilterMissingName(entries[..n], name);
      ByCategoryAppend(Flatten(entries[..n]), Tag(entries[n].1, entries[n].0), name);
      ByCategoryTag(entries[n].1, entries[n].0, name);
    }
  }

  /** `categories ? Object.keys(categories) : []` */
  function CategoryNames(categories: Option<Entries>): (names: seq<string>)
    ensures categories.None? ==> names == []
    ensures categories.Some? ==> |names| == |categories.value|
    ensures categories.Some? ==> forall i :: 0 <= i < |names| ==> names[i] == categories.value[i].0
  {
    match categories
    case None => []
    case Some(entries) => seq(|entries|, i requires 0 <= i < |entries| => entries[i].0)
  }

  /** Every project in the list carries the name of a category offered in the selector. */
  lemma {:induction false} ProjectCategoriesListed(entries: Entries, p: Item)
    requires p in Flatten(entries)
    ensures exists name :: name in CategoryNames(Some(entries)) && Get(p, CATEGORY_KEY) == Some(name)
    decreases |entries|
  {
    var n := |entries| - 1;
    var names := CategoryNames(Some(entries));
    if p in Flatten(entries[..n]) {
      ProjectCategoriesListed(entries[..n], p);
      var name :| name in CategoryNames(Some(entries[..n])) && Get(p, CATEGORY_KEY) == Some(name);
      var i :| 0 <= i < n && CategoryNames(Some(entries[..n]))[i] == name;
      assert names[i] == name;
    } else {
      assert p in Tag(entries[n].1, entries[n].0);
      assert names[n] == entries[n].0;
    }
  }

  /** The bucket object the backend sends, as the timeline reads it. */
  lemma CategorizedEntries(b: Categorize.Buckets, c: Categorize.Category)
    ensures |Flatten(b.Entries())| == b.Total()
    ensures ByCategory(Flatten(b.Entries()), c.Name()) == Tag(b.Get(c), c.Name())
  {
    var e := b.Entries();
    FlattenLength(e);
    var e3 := e[..3];
    var e2 := e3[..2];
    var e1 := e2[..1];
    assert e1[..0] == [];
    assert SumLengths(e1) == |b.aprendizagem|;
    assert SumLengths(e2) == |b.aprendizagem| + |b.processos|;
    assert SumLengths(e3) == |b.aprendizagem| + |b.processos| + |b.clienteEMercado|;
    assert SumLengths(e) == b.Total();
    assert DistinctNames(e);
    match c
    case Aprendizagem => FilterSelectsBucket(e, 0);
    case Processos => FilterSelectsBucket(e, 1);
    case ClienteEMercado => FilterSelectsBucket(e, 2);
    case Resultado => FilterSelectsBucket(e, 3);
  }

  // ---------------------------------------------------------------------
  // Labels and slugs

  /** `` `${n} projeto${n !== 1 ? 's' : ''}` `` */
  function CountLabel(n: nat): string {
    Decimal(n) + " projeto" + (if n != 1 then "s" else "")
  }

  /** The label starts with the count and is plural exactly when the count is not one. */
  lemma CountLabelPlural(n: nat)
    ensures StartsWith(CountLabel(n), Decimal(n))
    ensures CountLabel(n)[|CountLabel(n)| - 1] == 's' <==> n != 1
  {
    var text := CountLabel(n);
    assert text[..|Decimal(n)|] == Decimal(n);
  }

  /** `.replace(/\s+/g, '-')`: every maximal run of white space becomes one `-`. */
  function DashSpaces(s: string): (r: string)
    ensures forall i :: 0 <= i < |r| ==> !IsSpace(r[i])
    ensures |r| <= |s|
    ensures r == [] <==> s == []
    ensures forall i :: 0 <= i < |r| ==> r[i] == '-' || r[i] in s
    decreases |s|
  {
    if s == [] then []
    else if IsSpace(s[0]) then
      var n := LeadingSpaces(s);
      var rest := DashSpaces(s[n..]);
      assert forall c :: c in s[n..] ==> c in s;
      "-" + rest
    else
      var rest := DashSpaces(s[1..]);
      assert forall c :: c in s[1..] ==> c in s;
      [s[0]] + rest
  }

  /** A string without white space is left as it is. */
  lemma {:induction false} DashSpacesNoSpace(s: string)
    requires forall i :: 0 <= i < |s| ==> !IsSpace(s[i])
    ensures DashSpaces(s) == s
    decreases |s|
  {
    if s != [] {
      DashSpacesNoSpace(s[1..]);
    }
  }

  /**
   * A maximal white-space run after a space-free stretch becomes one `-`,
   * and the stretch before it is kept as it is.
   */
  lemma {:induction false} DashSpacesRun(a: string, w: string, b: string)
    requires forall i :: 0 <= i < |a| ==> !IsSpace(a[i])
    requires w != [] && AllSpace(w)
    requires b == [] || !IsSpace(b[0])
    ensures DashSpaces(a + w + b) == a + "-" + DashSpaces(b)
    decreases |a|
  {
    var s := a + w + b;
    if a == [] {
      assert s == w + b;
      DashSpacesLeadingRun(w, b);
    } else {
      assert s[0] == a[0] && !IsSpace(s[0]);
      assert s[1..] == a[1..] + w + b;
      assert DashSpaces(s) == [a[0]] + DashSpaces(s[1..]);
      DashSpacesRun(a[1..], w, b);
      assert a + "-" + DashSpaces(b) == [a[0]] + (a[1..] + "-" + DashSpaces(b));
    }
  }

  /** A leading white-space run becomes one `-`. */
  lemma DashSpacesLeadingRun(w: string, b: string)
    requires w != [] && AllSpace(w)
    requires b == [] || !IsSpace(b[0])
    ensures DashSpaces(w + b) == "-" + DashSpaces(b)
  {
    var s := w + b;
    assert s[0] == w[0];
    LeadingSpacesRun(w, b);
    assert s[|w|..] == b;
  }

  /** The white space at the head of `w + b` is exactly `w` when `b` does not start with white space. */
  lemma {:induction false} LeadingSpacesRun(w: string, b: string)
    requires AllSpace(w)
    requires b == [] || !IsSpace(b[0])
    ensures LeadingSpaces(w + b) == |w|
    decreases |w|
  {
    if w == [] {
      assert w + b == b;
    } else {
      assert (w + b)[0] == w[0];
      assert (w + b)[1..] == w[1..] + b;
      LeadingSpacesRun(w[1..], b);
    }
  }

  /** `.toLowerCase().replace(/\s+/g, '-')`: the CSS class suffix of a badge. */
  function Slug(s: string): (r: string)
    ensures forall i :: 0 <= i < |r| ==> !IsSpace(r[i])
    ensures r == [] <==> s == []
  {
    DashSpaces(Lower(s))
  }

  lemma LowerCharFacts(c: char)
    ensures LowerChar(LowerChar(c)) == LowerChar(c)
    ensures IsSpace(LowerChar(c)) == IsSpace(c)
  {
  }

  /** A slug is its own slug: it is lower case and has no white space left. */
  lemma SlugIdempotent(s: string)
    ensures Slug(Slug(s)) == Slug(s)
  {
    var r := Slug(s);
    var l := Lower(s);
    forall i | 0 <= i < |r|
      ensures LowerChar(r[i]) == r[i]
    {
      if r[i] != '-' {
        assert r[i] in l;
        var j :| 0 <= j < |l| && l[j] == r[i];
        LowerCharFacts(s[j]);
      }
    }
    assert Lower(r) == r;
    DashSpacesNoSpace(r);
  }

  const STATUS_KEY := "STATUS "

  /**
   * The status badge class suffix: the slug of the `STATUS ` field (the
   * header carries a trailing space), or `indefinido` when the field is
   * missing or empty.
   */
  function StatusSlug(p: Item): (r: string)
    ensures r != []
    ensures forall i :: 0 <= i < |r| ==> !IsSpace(r[i])
    ensures (Get(p, STATUS_KEY).None? || Get(p, STATUS_KEY) == Some("")) ==> r == "indefinido"
    ensures Get(p, STATUS_KEY).Some? && Get(p, STATUS_KEY).value != "" ==> r == Slug(Get(p, STATUS_KEY).value)
  {
    match Get(p, STATUS_KEY)
    case None => "indefinido"
    case Some(v) => var slug := Slug(v); if slug != "" then slug else "indefinido"
  }

  /** `project['STATUS '] || 'Indefinido'` */
  function StatusLabel(p: Item): (r: string)
    ensures r != []
    ensures r == "Indefinido" || Get(p, STATUS_KEY) == Some(r)
    ensures Get(p, STATUS_KEY).Some? && Get(p, STATUS_KEY).value != "" ==> r == Get(p, STATUS_KEY).value
  {
    match Get(p, STATUS_KEY)
    case Some(v) => if v != "" then v else "Indefinido"
    case None => "Indefinido"
  }

  /** `project.PROJETO || 'Projeto sem título'` */
  function Title(p: Item): (r: string)
    ensures r != []
    ensures r == "Projeto sem título" || Get(p, "PROJETO") == Some(r)
    ensures Get(p, "PROJETO").None? ==> r == "Projeto sem título"
    ensures Get(p, "PROJETO").Some? && Get(p, "PROJETO").value != "" ==> r == Get(p, "PROJETO").value
  {
    match Get(p, "PROJETO")
    case Some(v) => if v != "" then v else "Projeto sem título"
    case None => "Projeto sem título"
  }
}
