// The screenshot handling of src/prod_monitoring/generate_region_report.py: plot
// titles, grouping by keyword, the group total of the HTML builder, pattern-based
// and name-based image collection.
//
// Directory listings, `os.path.isfile`, regex compilation and search, and
// `fnmatch` are inputs: a listing is the list of names (None when it cannot be
// read) and the other three are predicates bundled in `Matching`. The HTML text,
// image embedding and PDF export are not modelled.
module RegionReport {
  import opened Wrappers
  import opened Text
  import opened PyDict
  import opened Sorting
  import opened Seqs

  // ---------------------------------------------------------------------
  // Paths

  /** `os.path.basename`: the text after the last '/'. */
  function BaseName(p: string): (r: string)
    ensures |r| <= |p| && r == p[|p| - |r|..] && '/' !in r
  {
    AfterLast(p, '/')
  }

  /** The position of the last c in s, when there is one. */
  function LastIndex(s: string, c: char): (r: Option<nat>)
    ensures r.None? ==> forall k :: 0 <= k < |s| ==> s[k] != c
    ensures r.Some? ==> r.value < |s| && s[r.value] == c && forall k :: r.value < k < |s| ==> s[k] != c
  {
    if s == [] then None
    else if s[|s| - 1] == c then Some(|s| - 1)
    else
      var r := LastIndex(s[..|s| - 1], c);
      assert forall k :: 0 <= k < |s| - 1 ==> s[..|s| - 1][k] == s[k];
      r
  }

  predicate OnlyDots(s: string, d: nat)
    requires d <= |s|
  {
    forall k :: 0 <= k < d ==> s[k] == '.'
  }

  /**
   * `os.path.splitext(name)[0]` for a name without '/': the text before the last
   * dot, unless only dots precede it (".bashrc" has no extension).
   */
  function StemOfName(name: string): (r: string)
    ensures r <= name
  {
    match LastIndex(name, '.')
    case None => name
    case Some(d) => if OnlyDots(name, d) then name else name[..d]
  }

  /** `os.path.splitext(p)[0]`: the extension is looked for in the last path component only. */
  function Stem(p: string): (r: string)
    ensures r <= p
  {
    var b := BaseName(p);
    var dir := p[..|p| - |b|];
    assert p == dir + b;
    dir + StemOfName(b)
  }

  /** splitext cuts exactly the last extension off a name that has a non-dot character. */
  lemma StemDropsExtension(name: string, ext: string, k: nat)
    requires k < |name| && name[k] != '.'
    requires '.' !in ext
    ensures StemOfName(name + "." + ext) == name
  {
    var s := name + "." + ext;
    assert s[|name|] == '.';
    assert forall j :: |name| < j < |s| ==> s[j] == ext[j - |name| - 1];
    assert LastIndex(s, '.') == Some(|name|);
    assert s[k] == name[k];
    assert s[..|name|] == name;
  }

  /** `os.path.join(dir, name)` for a name from a listing (it holds no '/'). */
  function JoinPath(dir: string, name: string): string
  {
    if dir == [] || EndsWith(dir, "/") then dir + name else dir + "/" + name
  }

  // ---------------------------------------------------------------------
  // humanize_title: str methods on ASCII text

  function SpaceSeparators(s: string): (r: string)
    ensures |r| == |s|
    ensures forall i :: 0 <= i < |s| ==> r[i] == (if s[i] == '_' || s[i] == '-' then ' ' else s[i])
  {
    seq(|s|, i requires 0 <= i < |s| => if s[i] == '_' || s[i] == '-' then ' ' else s[i])
  }

  /** `str.isupper()`: some cased character, and no lower-case one. */
  predicate IsUpperText(s: string)
  {
    (exists k :: 0 <= k < |s| && IsUpper(s[k])) && forall k :: 0 <= k < |s| ==> !IsLower(s[k])
  }

  /** `str.title()`: a letter after a letter is lowered, every other character is raised. */
  function TitleCase(s: string): (r: string)
    ensures |r| == |s|
    ensures forall i :: 0 <= i < |s| ==> r[i] == (if i > 0 && IsAlpha(s[i - 1]) then LowerChar(s[i]) else UpperChar(s[i]))
  {
    seq(|s|, i requires 0 <= i < |s| => if i > 0 && IsAlpha(s[i - 1]) then LowerChar(s[i]) else UpperChar(s[i]))
  }

  /** The words of the file name: extension dropped, '_' and '-' read as spaces, whitespace collapsed. */
  function TitleWords(filename: string): string
  {
    Collapse(SpaceSeparators(StemOfName(BaseName(filename))))
  }

  /** `humanize_title` */
  function HumanizeTitle(filename: string): string
  {
    var name := TitleWords(filename);
    if IsUpperText(name) then name else TitleCase(name)
  }

  /** Every character of a word of s is a character of s. */
  lemma {:induction false} WordsChars(s: string, c: char)
    requires c !in s
    ensures forall j :: 0 <= j < |Words(s)| ==> c !in Words(s)[j]
    decreases |s|
  {
    if s != [] {
      if IsSpace(s[0]) {
        WordsChars(s[1..], c);
      } else {
        var e := RunEnd(s, 0, NonSpace);
        assert c !in s[..e] by { assert forall k :: 0 <= k < e ==> s[..e][k] == s[k]; }
        assert c !in s[e..] by { assert forall k :: 0 <= k < |s| - e ==> s[e..][k] == s[e + k]; }
        WordsChars(s[e..], c);
        assert Words(s) == [s[..e]] + Words(s[e..]);
      }
    }
  }

  lemma {:induction false} JoinChars(ws: seq<string>, c: char)
    requires c != ' ' && forall j :: 0 <= j < |ws| ==> c !in ws[j]
    ensures c !in Join(" ", ws)
    decreases |ws|
  {
    if |ws| > 1 {
      JoinChars(ws[1..], c);
      assert Join(" ", ws) == ws[0] + " " + Join(" ", ws[1..]);
    }
  }

  /** A character absent from s (other than the space) is absent from its collapsed form. */
  lemma CollapseChars(s: string, c: char)
    requires c != ' ' && c !in s
    ensures c !in Collapse(s)
  {
    WordsChars(s, c);
    JoinChars(Words(s), c);
  }

  /** The words of a file name hold no '_' or '-' and are single-spaced. */
  lemma TitleWordsShape(filename: string)
    ensures '_' !in TitleWords(filename) && '-' !in TitleWords(filename)
    ensures SingleSpaced(TitleWords(filename))
  {
    var s := SpaceSeparators(StemOfName(BaseName(filename)));
    assert '_' !in s && '-' !in s;
    CollapseChars(s, '_');
    CollapseChars(s, '-');
    CollapseSingleSpaced(s);
  }

  /** title() changes only the case of letters. */
  lemma {:induction false} TitleCaseLetters(w: string, i: nat)
    requires i < |w|
    ensures LowerChar(TitleCase(w)[i]) == LowerChar(w[i])
    ensures IsAlpha(TitleCase(w)[i]) <==> IsAlpha(w[i])
    ensures !IsAlpha(w[i]) ==> TitleCase(w)[i] == w[i]
    ensures IsAlpha(w[i]) ==> (IsUpper(TitleCase(w)[i]) <==> !(i > 0 && IsAlpha(w[i - 1])))
  {
    var c := w[i];
    if IsUpper(c) {
      assert IsLower(LowerChar(c)) && UpperChar(c) == c;
    } else if IsLower(c) {
      assert IsUpper(UpperChar(c)) && LowerChar(c) == c;
    }
  }

  lemma TitleCaseLower(w: string)
    ensures Lower(TitleCase(w)) == Lower(w)
  {
    forall i | 0 <= i < |w| ensures Lower(TitleCase(w))[i] == Lower(w)[i] {
      TitleCaseLetters(w, i);
    }
  }

  /** title() keeps every other character, so it keeps their absence and the spacing. */
  lemma TitleCaseKeeps(w: string)
    requires '_' !in w && '-' !in w && SingleSpaced(w)
    ensures '_' !in TitleCase(w) && '-' !in TitleCase(w) && SingleSpaced(TitleCase(w))
  {
    var r := TitleCase(w);
    forall i | 0 <= i < |r| ensures r[i] != '_' && r[i] != '-' && (IsSpace(r[i]) <==> IsSpace(w[i])) && (IsSpace(w[i]) ==> r[i] == w[i]) {
      TitleCaseLetters(w, i);
    }
  }

  /** After title(), a letter is upper case exactly when it starts a word. */
  lemma TitleCaseCapital(w: string, i: nat)
    requires i < |w| && IsAlpha(TitleCase(w)[i])
    ensures IsUpper(TitleCase(w)[i]) <==> i == 0 || !IsAlpha(w[i - 1])
  {
    TitleCaseLetters(w, i);
  }

  /**
   * A title has no '_' or '-', is single-spaced, and spells the words of the
   * file name up to letter case; unless it is all upper case, every letter
   * that starts a word is upper case and every other letter lower case.
   */
  lemma HumanizeTitleShape(filename: string)
    ensures '_' !in HumanizeTitle(filename) && '-' !in HumanizeTitle(filename)
    ensures SingleSpaced(HumanizeTitle(filename))
    ensures Lower(HumanizeTitle(filename)) == Lower(TitleWords(filename))
    ensures !IsUpperText(TitleWords(filename)) ==> forall i :: 0 <= i < |HumanizeTitle(filename)| && IsAlpha(HumanizeTitle(filename)[i]) ==>
      (IsUpper(HumanizeTitle(filename)[i]) <==> i == 0 || !IsAlpha(TitleWords(filename)[i - 1]))
  {
    var w := TitleWords(filename);
    TitleWordsShape(filename);
    if !IsUpperText(w) {
      TitleCaseKeeps(w);
      TitleCaseLower(w);
      var r := TitleCase(w);
      forall i | 0 <= i < |r| && IsAlpha(r[i]) ensures IsUpper(r[i]) <==> i == 0 || !IsAlpha(w[i - 1]) {
        TitleCaseCapital(w, i);
      }
    }
  }

  // ---------------------------------------------------------------------
  // group_images_by_type

  const ErrorKeywords := ["error", "fail", "exception"]
  const PerformanceKeywords := ["perf", "latency", "duration", "response", "time", "ms"]
  const ExternalKeywords := ["external", "api"]

  /** The groups; the dictionary keys of the result are their titles. */
  datatype Group = Errors | Performance | External | Other

  /** `group_name.title()`, and the fixed "Other". */
  function Title(g: Group): string
  {
    match g
    case Errors => "Errors"
    case Performance => "Performance"
    case External => "External"
    case Other => "Other"
  }

  const GroupOrder := [Errors, Performance, External, Other]

  function Rank(g: Group): (n: nat)
    ensures n < |GroupOrder| && GroupOrder[n] == g
  {
    match g
    case Errors => 0
    case Performance => 1
    case External => 2
    case Other => 3
  }

  predicate AnyIn(name: string, keywords: seq<string>)
  {
    exists k :: 0 <= k < |keywords| && Contains(name, keywords[k])
  }

  /** The first keyword group, in the order errors, performance, external, that the lowercased base name mentions. */
  function GroupOf(p: string): Group
  {
    var name := Lower(BaseName(p));
    if AnyIn(name, ErrorKeywords) then Errors
    else if AnyIn(name, PerformanceKeywords) then Performance
    else if AnyIn(name, ExternalKeywords) then External
    else Other
  }

  /** The paths of group g, in input order. */
  function Members(cls: string -> Group, paths: seq<string>, g: Group): (r: seq<string>)
    ensures |r| <= |paths|
  {
    if paths == [] then [] else (if cls(paths[0]) == g then [paths[0]] else []) + Members(cls, paths[1..], g)
  }

  /** A path is in the group its name selects, and in no other. */
  lemma {:induction false} MembersIn(cls: string -> Group, paths: seq<string>, g: Group, x: string)
    ensures x in Members(cls, paths, g) <==> x in paths && cls(x) == g
  {
    if paths != [] {
      MembersIn(cls, paths[1..], g, x);
      assert x in paths <==> x == paths[0] || x in paths[1..];
    }
  }

  /** The member lists of all groups at once, as a function of the group. */
  function MembersOf(paths: seq<string>): Group -> seq<string>
  {
    g => Members(GroupOf, paths, g)
  }

  /** The non-empty groups among `keys`, in the order of `keys`, each with its members. */
  function GroupedBy(members: Group -> seq<string>, keys: seq<Group>): Dict<Group, seq<string>>
  {
    if keys == [] then []
    else (if members(keys[0]) == [] then [] else [(keys[0], members(keys[0]))]) + GroupedBy(members, keys[1..])
  }

  /** Every entry of r is one of `keys` with its non-empty member list. */
  predicate EntriesListed(r: Dict<Group, seq<string>>, members: Group -> seq<string>, keys: seq<Group>)
  {
    forall i :: 0 <= i < |r| ==> r[i].0 in keys && r[i].1 == members(r[i].0) && r[i].1 != []
  }

  /** Every one of `keys` with members has an entry in r. */
  predicate KeysCovered(r: Dict<Group, seq<string>>, members: Group -> seq<string>, keys: seq<Group>)
  {
    forall k :: k in keys && members(k) != [] ==> exists i :: 0 <= i < |r| && r[i].0 == k
  }

  /** Each listed group is one of `keys` with its non-empty member list, and every non-empty group of `keys` is listed. */
  lemma GroupedBySpec(members: Group -> seq<string>, keys: seq<Group>)
    ensures EntriesListed(GroupedBy(members, keys), members, keys)
    ensures KeysCovered(GroupedBy(members, keys), members, keys)
  {
    GroupedByListed(members, keys);
    GroupedByCovered(members, keys);
  }

  lemma {:induction false} GroupedByListed(members: Group -> seq<string>, keys: seq<Group>)
    ensures EntriesListed(GroupedBy(members, keys), members, keys)
  {
    if keys != [] {
      GroupedByListed(members, keys[1..]);
      var rest := GroupedBy(members, keys[1..]);
      var r := GroupedBy(members, keys);
      if members(keys[0]) == [] {
        assert r == rest;
      } else {
        assert r == [(keys[0], members(keys[0]))] + rest;
        forall i | 0 <= i < |r| ensures r[i].0 in keys && r[i].1 == members(r[i].0) && r[i].1 != [] {
          if i > 0 {
            assert r[i] == rest[i - 1];
            assert rest[i - 1].0 in keys[1..];
          }
        }
      }
    }
  }

  lemma {:induction false} GroupedByCovered(members: Group -> seq<string>, keys: seq<Group>)
    ensures KeysCovered(GroupedBy(members, keys), members, keys)
  {
    if keys != [] {
      GroupedByCovered(members, keys[1..]);
      var rest := GroupedBy(members, keys[1..]);
      var r := GroupedBy(members, keys);
      if members(keys[0]) == [] {
        assert r == rest;
        forall k | k in keys && members(k) != [] ensures exists i :: 0 <= i < |r| && r[i].0 == k {
          assert k in keys[1..];
        }
      } else {
        assert r == [(keys[0], members(keys[0]))] + rest;
        forall k | k in keys && members(k) != [] ensures exists i :: 0 <= i < |r| && r[i].0 == k {
          if k == keys[0] {
            assert r[0].0 == k;
          } else {
            assert k in keys[1..];
            var i :| 0 <= i < |rest| && rest[i].0 == k;
            assert r[i + 1].0 == k;
          }
        }
      }
    }
  }

  /** What `group_images_by_type` returns. */
  function Grouped(paths: seq<string>): Dict<Group, seq<string>>
  {
    GroupedBy(MembersOf(paths), GroupOrder)
  }

  lemma {:induction false} MembersAppend(cls: string -> Group, a: seq<string>, b: seq<string>, g: Group)
    ensures Members(cls, a + b, g) == Members(cls, a, g) + Members(cls, b, g)
  {
    if a == [] {
      assert a + b == b;
    } else {
      var h := if cls(a[0]) == g then [a[0]] else [];
      assert (a + b)[0] == a[0];
      assert (a + b)[1..] == a[1..] + b;
      MembersAppend(cls, a[1..], b, g);
      assert Members(cls, a + b, g) == h + Members(cls, a[1..] + b, g);
      assert Members(cls, a, g) == h + Members(cls, a[1..], g);
    }
  }

  lemma {:induction false} GroupedByAppend(members: Group -> seq<string>, a: seq<Group>, b: seq<Group>)
    ensures GroupedBy(members, a + b) == GroupedBy(members, a) + GroupedBy(members, b)
  {
    if a == [] {
      assert a + b == b;
    } else {
      assert (a + b)[0] == a[0] && (a + b)[1..] == a[1..] + b;
      GroupedByAppend(members, a[1..], b);
    }
  }

  /** The dictionary that `group_images_by_type` fills: each group with its paths so far. */
  ghost predicate GroupsSoFar(cls: string -> Group, groups: Dict<Group, seq<string>>, paths: seq<string>)
  {
    forall g :: Lookup(groups, g) == (if Members(cls, paths, g) == [] then None else Some(Members(cls, paths, g)))
  }

  /** `group_images_by_type` */
  method GroupImagesByType(paths: seq<string>) returns (ordered: Dict<Group, seq<string>>)
    ensures ordered == Grouped(paths)
  {
    var groups := FillGroups(GroupOf, paths);
    ordered := OrderGroups(paths, groups);
  }

  /** The first loop of `group_images_by_type`: `setdefault(...).append(p)` for each path. */
  method FillGroups(cls: string -> Group, paths: seq<string>) returns (groups: Dict<Group, seq<string>>)
    ensures GroupsSoFar(cls, groups, paths)
  {
    groups := [];
    for i := 0 to |paths|
      invariant GroupsSoFar(cls, groups, paths[..i])
    {
      var p := paths[i];
      var g := cls(p);
      var existing := Lookup(groups, g);
      var current := if existing.Some? then existing.value else [];
      AddToGroup(cls, groups, paths[..i], p, g);
      assert paths[..i + 1] == paths[..i] + [p];
      groups := Set(groups, g, current + [p]);
    }
    assert paths[..|paths|] == paths;
  }

  /** The second loop of `group_images_by_type`: the present groups, copied in the fixed order. */
  method OrderGroups(paths: seq<string>, groups: Dict<Group, seq<string>>) returns (ordered: Dict<Group, seq<string>>)
    requires GroupsSoFar(GroupOf, groups, paths)
    ensures ordered == Grouped(paths)
  {
    ordered := [];
    for k := 0 to |GroupOrder|
      invariant ordered == GroupedBy(MembersOf(paths), GroupOrder[..k])
    {
      var key := GroupOrder[k];
      OrderedStep(groups, paths, k);
      // the keys are distinct, so each one is a new entry
      match Lookup(groups, key) {
        case Some(v) => ordered := ordered + [(key, v)];
        case None =>
      }
    }
    assert GroupOrder[..|GroupOrder|] == GroupOrder;
  }

  /** One round of the final dictionary comprehension of `group_images_by_type`. */
  lemma OrderedStep(groups: Dict<Group, seq<string>>, paths: seq<string>, k: nat)
    requires GroupsSoFar(GroupOf, groups, paths) && k < |GroupOrder|
    ensures GroupedBy(MembersOf(paths), GroupOrder[..k + 1]) ==
      GroupedBy(MembersOf(paths), GroupOrder[..k]) + match Lookup(groups, GroupOrder[k]) case Some(v) => [(GroupOrder[k], v)] case None => []
  {
    var key := GroupOrder[k];
    GroupedByAppend(MembersOf(paths), GroupOrder[..k], [key]);
    assert GroupOrder[..k + 1] == GroupOrder[..k] + [key];
    assert [key][1..] == [];
    assert MembersOf(paths)(key) == Members(GroupOf, paths, key);
    assert Lookup(groups, key) == (if Members(GroupOf, paths, key) == [] then None else Some(Members(GroupOf, paths, key)));
  }

  lemma MembersOne(cls: string -> Group, p: string, h: Group)
    ensures Members(cls, [p], h) == if cls(p) == h then [p] else []
  {
    assert [p][0] == p && [p][1..] == [];
  }

  lemma AddToGroupAt(cls: string -> Group, groups: Dict<Group, seq<string>>, done: seq<string>, p: string, g: Group, v: seq<string>, h: Group)
    requires GroupsSoFar(cls, groups, done) && g == cls(p)
    requires v == (match Lookup(groups, g) case Some(prev) => prev case None => []) + [p]
    ensures Lookup(Set(groups, g, v), h) == (if Members(cls, done + [p], h) == [] then None else Some(Members(cls, done + [p], h)))
  {
    MembersAppend(cls, done, [p], h);
    MembersOne(cls, p, h);
    assert Lookup(groups, h) == (if Members(cls, done, h) == [] then None else Some(Members(cls, done, h)));
    if h != g {
      SetOther(groups, g, v, h);
      assert Members(cls, done + [p], h) == Members(cls, done, h);
    } else {
      assert Members(cls, done + [p], h) == Members(cls, done, h) + [p];
      assert v == Members(cls, done, h) + [p];
      SetShape(groups, g, v);
    }
  }

  lemma AddToGroup(cls: string -> Group, groups: Dict<Group, seq<string>>, done: seq<string>, p: string, g: Group)
    requires GroupsSoFar(cls, groups, done) && g == cls(p)
    ensures GroupsSoFar(cls, Set(groups, g, (if Lookup(groups, g).Some? then Lookup(groups, g).value else []) + [p]), done + [p])
  {
    var existing := Lookup(groups, g);
    var v := (if existing.Some? then existing.value else []) + [p];
    forall h ensures Lookup(Set(groups, g, v), h) == (if Members(cls, done + [p], h) == [] then None else Some(Members(cls, done + [p], h))) {
      AddToGroupAt(cls, groups, done, p, g, v, h);
    }
  }

  function SizesSum<K>(groups: Dict<K, seq<string>>): nat
  {
    if groups == [] then 0 else |groups[0].1| + SizesSum(groups[1..])
  }

  function GroupSize(cls: string -> Group, paths: seq<string>): nat
  {
    |Members(cls, paths, Errors)| + |Members(cls, paths, Performance)| + |Members(cls, paths, External)| + |Members(cls, paths, Other)|
  }

  lemma {:induction false} EveryPathOnce(cls: string -> Group, paths: seq<string>)
    ensures GroupSize(cls, paths) == |paths|
  {
    if paths != [] {
      EveryPathOnce(cls, paths[1..]);
    }
  }

  lemma GroupedByCons(members: Group -> seq<string>, keys: seq<Group>)
    requires keys != []
    ensures SizesSum(GroupedBy(members, keys)) == |members(keys[0])| + SizesSum(GroupedBy(members, keys[1..]))
  {
    var m := members(keys[0]);
    var head := if m == [] then [] else [(keys[0], m)];
    SizesSumAppend(head, GroupedBy(members, keys[1..]));
    if m != [] {
      assert head[1..] == [];
    }
  }

  /** Every input path lands in exactly one group, so the group sizes sum to the number of paths. */
  lemma GroupedSizes(paths: seq<string>)
    ensures SizesSum(Grouped(paths)) == |paths|
  {
    EveryPathOnce(GroupOf, paths);
    var f, o := MembersOf(paths), GroupOrder;
    GroupedByCons(f, o);
    GroupedByCons(f, o[1..]);
    GroupedByCons(f, o[1..][1..]);
    GroupedByCons(f, o[1..][1..][1..]);
    assert o[1..][1..][1..][1..] == [];
    assert f(Errors) == Members(GroupOf, paths, Errors) && f(Performance) == Members(GroupOf, paths, Performance);
    assert f(External) == Members(GroupOf, paths, External) && f(Other) == Members(GroupOf, paths, Other);
  }

  lemma RankOfIndex(j: nat)
    requires j < |GroupOrder|
    ensures Rank(GroupOrder[j]) == j
  {
    if j == 0 {} else if j == 1 {} else if j == 2 {} else {}
  }

  /** The entries of r come in strictly increasing rank, none below m. */
  predicate RankedFrom(r: Dict<Group, seq<string>>, m: nat)
  {
    && (forall i :: 0 <= i < |r| ==> m <= Rank(r[i].0))
    && (forall i :: 0 < i < |r| ==> Rank(r[i - 1].0) < Rank(r[i].0))
  }

  /** Keys whose ranks run m, m + 1, … give entries in strictly increasing rank, none below m. */
  lemma {:induction false} GroupedByRanks(members: Group -> seq<string>, keys: seq<Group>, m: nat)
    requires forall j :: 0 <= j < |keys| ==> Rank(keys[j]) == m + j
    ensures RankedFrom(GroupedBy(members, keys), m)
    decreases |keys|
  {
    if keys != [] {
      var tail := keys[1..];
      assert forall j :: 0 <= j < |tail| ==> tail[j] == keys[j + 1];
      GroupedByRanks(members, tail, m + 1);
      var rest := GroupedBy(members, tail);
      var r := GroupedBy(members, keys);
      if members(keys[0]) == [] {
        assert r == rest;
      } else {
        assert r == [(keys[0], members(keys[0]))] + rest;
        forall i | 0 < i < |r| ensures m + 1 <= Rank(r[i].0) {
          assert r[i] == rest[i - 1];
        }
        forall i | 1 < i < |r| ensures Rank(r[i - 1].0) < Rank(r[i].0) {
          assert r[i] == rest[i - 1] && r[i - 1] == rest[i - 2];
        }
      }
    }
  }

  /** The groups come in the order Errors, Performance, External, Other. */
  lemma GroupedOrder(paths: seq<string>)
    ensures forall i, j :: 0 <= i < j < |Grouped(paths)| ==> Rank(Grouped(paths)[i].0) < Rank(Grouped(paths)[j].0)
  {
    GroupOrderRanks();
    GroupedByRanks(MembersOf(paths), GroupOrder, 0);
    RankedIncreasing(Grouped(paths), 0);
  }

  lemma GroupOrderRanks()
    ensures forall j :: 0 <= j < |GroupOrder| ==> Rank(GroupOrder[j]) == 0 + j
  {
    forall j | 0 <= j < |GroupOrder| ensures Rank(GroupOrder[j]) == 0 + j {
      RankOfIndex(j);
    }
  }

  /** Ranks that grow from each entry to the next grow from any entry to any later one. */
  lemma RankedIncreasing(r: Dict<Group, seq<string>>, m: nat)
    requires RankedFrom(r, m)
    ensures forall i, j :: 0 <= i < j < |r| ==> Rank(r[i].0) < Rank(r[j].0)
  {
    forall i, j | 0 <= i < j < |r| ensures Rank(r[i].0) < Rank(r[j].0) {
      var k := i + 1;
      while k < j
        invariant i < k <= j && Rank(r[i].0) < Rank(r[k].0)
        decreases j - k
      {
        assert Rank(r[k].0) < Rank(r[k + 1].0);
        k := k + 1;
      }
    }
  }

  /** Each listed group holds its paths, in input order, and is not empty. */
  lemma GroupedMembers(paths: seq<string>, i: nat)
    requires i < |Grouped(paths)|
    ensures Grouped(paths)[i].1 == Members(GroupOf, paths, Grouped(paths)[i].0) && Grouped(paths)[i].1 != []
  {
    GroupedBySpec(MembersOf(paths), GroupOrder);
    assert EntriesListed(Grouped(paths), MembersOf(paths), GroupOrder);
    assert Grouped(paths)[i].1 == MembersOf(paths)(Grouped(paths)[i].0);
  }

  /** Every group that has a path is listed. */
  lemma GroupedComplete(paths: seq<string>, g: Group)
    requires Members(GroupOf, paths, g) != []
    ensures exists i :: 0 <= i < |Grouped(paths)| && Grouped(paths)[i].0 == g
  {
    GroupedBySpec(MembersOf(paths), GroupOrder);
    RankOfIndex(Rank(g));
    assert g in GroupOrder && MembersOf(paths)(g) == Members(GroupOf, paths, g);
    assert KeysCovered(Grouped(paths), MembersOf(paths), GroupOrder);
  }

  // ---------------------------------------------------------------------
  // build_groups_html: the counts and the card order, without the HTML

  /** The sort key of the cards and of collected images: the lowercased base name. */
  function BaseKey(p: string): string { Lower(BaseName(p)) }

  /** The counting in `build_groups_html`: the total, and each group's count shown in the sidebar. */
  method BuildGroups(groups: Dict<Group, seq<string>>) returns (total: nat, counts: seq<nat>)
    ensures total == SizesSum(groups)
    ensures |counts| == |groups| && forall i :: 0 <= i < |groups| ==> counts[i] == |groups[i].1|
  {
    total, counts := 0, [];
    for i := 0 to |groups|
      invariant total == SizesSum(groups[..i])
      invariant |counts| == i && forall j :: 0 <= j < i ==> counts[j] == |groups[j].1|
    {
      SizesSumAppend(groups[..i], [groups[i]]);
      assert groups[..i + 1] == groups[..i] + [groups[i]];
      total := total + |groups[i].1|;
      counts := counts + [|groups[i].1|];
    }
    assert groups[..|groups|] == groups;
  }

  lemma {:induction false} SizesSumAppend<K>(a: Dict<K, seq<string>>, b: Dict<K, seq<string>>)
    ensures SizesSum(a + b) == SizesSum(a) + SizesSum(b)
  {
    if a == [] {
      assert a + b == b;
    } else {
      assert (a + b)[0] == a[0] && (a + b)[1..] == a[1..] + b;
      SizesSumAppend(a[1..], b);
    }
  }

  // ---------------------------------------------------------------------
  // collect_images

  /** `include_patterns`: None, a comma-separated string, or a list. */
  datatype IncludePatterns = Default | Comma(text: string) | Listed(items: seq<string>)

  const DefaultPatterns := "*.png"

  /** Each entry stripped. */
  function StripEach(xs: seq<string>): (r: seq<string>)
    ensures |r| == |xs| && forall j :: 0 <= j < |xs| ==> r[j] == Strip(xs[j])
  {
    seq(|xs|, j requires 0 <= j < |xs| => Strip(xs[j]))
  }

  /** The non-empty entries, in order. */
  function NonEmpty(xs: seq<string>): (r: seq<string>)
    ensures |r| <= |xs|
    ensures forall k :: 0 <= k < |r| ==> r[k] != [] && r[k] in xs
    ensures forall x :: x in xs && x != [] ==> x in r
  {
    if xs == [] then [] else (if xs[0] == [] then [] else [xs[0]]) + NonEmpty(xs[1..])
  }

  /** `[p.strip() for p in ... if p.strip()]` */
  function PatternList(given: IncludePatterns): seq<string>
  {
    match given
    case Default => NonEmpty(StripEach(SplitOn(DefaultPatterns, ',')))
    case Comma(s) => NonEmpty(StripEach(SplitOn(s, ',')))
    case Listed(xs) => NonEmpty(StripEach(xs))
  }

  lemma StripShapeNoEdge(s: string)
    ensures Strip(s) == [] || (!IsSpace(Strip(s)[0]) && !IsSpace(Strip(s)[|Strip(s)| - 1]))
  {
    StripShape(s);
  }

  lemma StripKeepsAbsent(s: string, c: char)
    requires c !in s
    ensures c !in Strip(s)
  {
    StripShape(s);
  }

  /** Trimmed entries have no whitespace at either end. */
  lemma StrippedEdges(xs: seq<string>, k: nat)
    requires k < |NonEmpty(StripEach(xs))|
    ensures var p := NonEmpty(StripEach(xs))[k];
      p != [] && !IsSpace(p[0]) && !IsSpace(p[|p| - 1]) && exists j :: 0 <= j < |xs| && p == Strip(xs[j])
  {
    var ys := StripEach(xs);
    var p := NonEmpty(ys)[k];
    var j :| 0 <= j < |ys| && ys[j] == p;
    StripShapeNoEdge(xs[j]);
  }

  /**
   * A pattern string is split on commas and trimmed: no pattern is empty, holds
   * a comma or has whitespace at either end.
   */
  lemma PatternTextShape(s: string, k: nat)
    requires k < |PatternList(Comma(s))|
    ensures var p := PatternList(Comma(s))[k];
      p != [] && ',' !in p && !IsSpace(p[0]) && !IsSpace(p[|p| - 1])
  {
    var parts := SplitOn(s, ',');
    StrippedEdges(parts, k);
    var p := PatternList(Comma(s))[k];
    var j :| 0 <= j < |parts| && p == Strip(parts[j]);
    StripKeepsAbsent(parts[j], ',');
  }

  /** The listed form keeps every entry that is not blank, trimmed, in order. */
  lemma PatternListKeeps(xs: seq<string>, x: string)
    ensures x in PatternList(Listed(xs)) <==> x != [] && exists j :: 0 <= j < |xs| && x == Strip(xs[j])
  {
    var ys := StripEach(xs);
    if x != [] && exists j :: 0 <= j < |xs| && x == Strip(xs[j]) {
      var j :| 0 <= j < |xs| && x == Strip(xs[j]);
      assert ys[j] == x;
    }
    if x in NonEmpty(ys) {
      var j :| 0 <= j < |ys| && ys[j] == x;
    }
  }

  /** The file-system and pattern services `collect_images` calls. */
  datatype Matching = Matching(
    compiles: string -> bool,             // re.compile(text, re.IGNORECASE) succeeds
    regexSearch: (string, string) -> bool, // that regex finds a match in the file name
    globMatch: (string, string) -> bool,   // fnmatch.fnmatch(name, pattern)
    isFile: string -> bool)                // os.path.isfile(path)

  predicate IsRegex(pat: string) { StartsWith(Lower(pat), "re:") }

  /** The patterns that take part: an invalid regex is skipped. */
  predicate Usable(pat: string, m: Matching)
  {
    !IsRegex(pat) || m.compiles(pat[3..])
  }

  /** The pattern matches the file name: a regex searched in it, or a glob on the lowercased name. */
  predicate NameMatches(pat: string, fname: string, m: Matching)
  {
    if IsRegex(pat) then m.regexSearch(pat[3..], fname) else m.globMatch(Lower(fname), Lower(pat))
  }

  predicate Hit(dir: string, pat: string, fname: string, m: Matching)
  {
    Usable(pat, m) && NameMatches(pat, fname, m) && m.isFile(JoinPath(dir, fname))
  }

  /** One pattern's pass over the listing: new hits are appended in listing order. */
  function ScanFiles(acc: seq<string>, dir: string, pat: string, files: seq<string>, m: Matching): seq<string>
    decreases |files|
  {
    if files == [] then acc
    else
      var full := JoinPath(dir, files[0]);
      ScanFiles(if Hit(dir, pat, files[0], m) && full !in acc then acc + [full] else acc, dir, pat, files[1..], m)
  }

  /** All patterns in turn, before sorting. */
  function Discover(acc: seq<string>, dir: string, patterns: seq<string>, files: seq<string>, m: Matching): seq<string>
    decreases |patterns|
  {
    if patterns == [] then acc
    else Discover(ScanFiles(acc, dir, patterns[0], files, m), dir, patterns[1..], files, m)
  }

  /** What `collect_images` returns. */
  function CollectedImages(dir: string, given: IncludePatterns, listing: Option<seq<string>>, m: Matching): seq<string>
  {
    if listing.None? then [] else SortAsc(Discover([], dir, PatternList(given), listing.value, m), BaseKey)
  }

  /** The inner loop of `collect_images` for one pattern, with the `seen` set. */
  method ScanPattern(matches: seq<string>, seen: set<string>, dir: string, pat: string, files: seq<string>, m: Matching)
    returns (matches': seq<string>, seen': set<string>)
    requires forall x :: x in seen <==> x in matches
    ensures matches' == ScanFiles(matches, dir, pat, files, m)
    ensures forall x :: x in seen' <==> x in matches'
  {
    matches', seen' := matches, seen;
    if IsRegex(pat) && !m.compiles(pat[3..]) {
      ScanUnusable(matches, dir, pat, files, m);
      return;
    }
    for i := 0 to |files|
      invariant forall x :: x in seen' <==> x in matches'
      invariant ScanFiles(matches', dir, pat, files[i..], m) == ScanFiles(matches, dir, pat, files, m)
    {
      var fname := files[i];
      var full := JoinPath(dir, fname);
      assert files[i..][0] == fname && files[i..][1..] == files[i + 1..];
      if NameMatches(pat, fname, m) && m.isFile(full) && full !in seen' {
        matches' := matches' + [full];
        seen' := seen' + {full};
      }
    }
    assert files[|files|..] == [];
  }

  lemma {:induction false} ScanUnusable(acc: seq<string>, dir: string, pat: string, files: seq<string>, m: Matching)
    requires !Usable(pat, m)
    ensures ScanFiles(acc, dir, pat, files, m) == acc
    decreases |files|
  {
    if files != [] {
      ScanUnusable(acc, dir, pat, files[1..], m);
    }
  }

  /** `collect_images`; a listing of None stands for an unreadable directory. */
  method CollectImages(dir: string, given: IncludePatterns, listing: Option<seq<string>>, m: Matching)
    returns (r: seq<string>)
    ensures r == CollectedImages(dir, given, listing, m)
  {
    var patterns := PatternList(given);
    if listing.None? {
      return [];
    }
    var files := listing.value;
    var matches: seq<string> := [];
    var seen: set<string> := {};
    for k := 0 to |patterns|
      invariant forall x :: x in seen <==> x in matches
      invariant Discover(matches, dir, patterns[k..], files, m) == Discover([], dir, patterns, files, m)
    {
      assert patterns[k..][0] == patterns[k] && patterns[k..][1..] == patterns[k + 1..];
      matches, seen := ScanPattern(matches, seen, dir, patterns[k], files, m);
    }
    assert patterns[|patterns|..] == [];
    r := SortAsc(matches, BaseKey);
  }

  /** No element occurs twice. */
  ghost predicate NoDuplicates(xs: seq<string>)
  {
    forall x :: multiset(xs)[x] <= 1
  }

  lemma AppendNew(acc: seq<string>, x: string)
    requires NoDuplicates(acc) && x !in acc
    ensures NoDuplicates(acc + [x])
  {
    assert multiset(acc + [x]) == multiset(acc) + multiset{x};
  }

  /**
   * A scan keeps the paths unique and adds exactly the listing's hits: x is in
   * the result iff it was there before or is the path of a hit.
   */
  lemma {:induction false} ScanFilesSpec(acc: seq<string>, dir: string, pat: string, files: seq<string>, m: Matching)
    requires NoDuplicates(acc)
    ensures var r := ScanFiles(acc, dir, pat, files, m);
      && NoDuplicates(r)
      && forall x :: x in r <==> x in acc || exists j :: 0 <= j < |files| && Hit(dir, pat, files[j], m) && x == JoinPath(dir, files[j])
    decreases |files|
  {
    if files != [] {
      var full := JoinPath(dir, files[0]);
      var next := if Hit(dir, pat, files[0], m) && full !in acc then acc + [full] else acc;
      if Hit(dir, pat, files[0], m) && full !in acc {
        AppendNew(acc, full);
      }
      ScanFilesSpec(next, dir, pat, files[1..], m);
      assert forall j :: 0 <= j < |files[1..]| ==> files[1..][j] == files[j + 1];
      var r := ScanFiles(acc, dir, pat, files, m);
      forall x ensures x in r <==> x in acc || exists j :: 0 <= j < |files| && Hit(dir, pat, files[j], m) && x == JoinPath(dir, files[j]) {
        if exists j :: 0 <= j < |files| && Hit(dir, pat, files[j], m) && x == JoinPath(dir, files[j]) {
          var j :| 0 <= j < |files| && Hit(dir, pat, files[j], m) && x == JoinPath(dir, files[j]);
          if j > 0 {
            assert Hit(dir, pat, files[1..][j - 1], m) && x == JoinPath(dir, files[1..][j - 1]);
          }
        }
      }
    }
  }

  predicate Found(x: string, dir: string, patterns: seq<string>, files: seq<string>, m: Matching)
  {
    exists p, j :: 0 <= p < |patterns| && 0 <= j < |files| && Hit(dir, patterns[p], files[j], m) && x == JoinPath(dir, files[j])
  }

  lemma {:induction false} DiscoverSpec(acc: seq<string>, dir: string, patterns: seq<string>, files: seq<string>, m: Matching)
    requires NoDuplicates(acc)
    ensures var r := Discover(acc, dir, patterns, files, m);
      && NoDuplicates(r)
      && forall x :: x in r <==> x in acc || Found(x, dir, patterns, files, m)
    decreases |patterns|
  {
    if patterns != [] {
      var next := ScanFiles(acc, dir, patterns[0], files, m);
      ScanFilesSpec(acc, dir, patterns[0], files, m);
      DiscoverSpec(next, dir, patterns[1..], files, m);
      var r := Discover(acc, dir, patterns, files, m);
      forall x ensures x in r <==> x in acc || Found(x, dir, patterns, files, m) {
        if Found(x, dir, patterns, files, m) {
          var p, j :| 0 <= p < |patterns| && 0 <= j < |files| && Hit(dir, patterns[p], files[j], m) && x == JoinPath(dir, files[j]);
          if p > 0 {
            assert patterns[1..][p - 1] == patterns[p];
            assert Found(x, dir, patterns[1..], files, m);
          }
        }
        if Found(x, dir, patterns[1..], files, m) {
          var p, j :| 0 <= p < |patterns[1..]| && 0 <= j < |files| && Hit(dir, patterns[1..][p], files[j], m) && x == JoinPath(dir, files[j]);
          assert patterns[1..][p] == patterns[p + 1];
        }
      }
    }
  }

  /**
   * `collect_images` returns each path at most once, sorted by lowercased base
   * name, and a path is returned iff some usable pattern matches a listed file
   * that is a regular file at that path.
   */
  lemma CollectedImagesSpec(dir: string, given: IncludePatterns, listing: Option<seq<string>>, m: Matching)
    ensures var r := CollectedImages(dir, given, listing, m);
      && NoDuplicates(r)
      && SortedAsc(r, BaseKey)
      && forall x :: x in r <==> listing.Some? && Found(x, dir, PatternList(given), listing.value, m)
  {
    if listing.Some? {
      var d := Discover([], dir, PatternList(given), listing.value, m);
      DiscoverSpec([], dir, PatternList(given), listing.value, m);
      var r := SortAsc(d, BaseKey);
      forall x ensures x in r <==> x in d {
        assert x in r <==> x in multiset(r);
      }
    }
  }

  // ---------------------------------------------------------------------
  // collect_by_exact_names

  /** `{fname.lower(): join(dir, fname) for fname in files if isfile(...)}`: a repeated key keeps its place and takes the later path. */
  function FileMap(dir: string, files: seq<string>, isFile: string -> bool): Dict<string, string>
  {
    if files == [] then []
    else
      var d := FileMap(dir, files[..|files| - 1], isFile);
      var f := files[|files| - 1];
      if isFile(JoinPath(dir, f)) then Set(d, Lower(f), JoinPath(dir, f)) else d
  }

  /** The first entry, in dictionary order, whose key is mapped by `key` to `base`. */
  function FirstKey(fileMap: Dict<string, string>, key: string -> string, base: string): (r: Option<nat>)
    ensures r.None? <==> forall i :: 0 <= i < |fileMap| ==> key(fileMap[i].0) != base
    ensures r.Some? ==> (r.value < |fileMap| && key(fileMap[r.value].0) == base
      && forall i :: 0 <= i < r.value ==> key(fileMap[i].0) != base)
  {
    if fileMap == [] then None
    else if key(fileMap[0].0) == base then Some(0)
    else
      var r := FirstKey(fileMap[1..], key, base);
      assert forall i :: 0 <= i < |fileMap| - 1 ==> fileMap[1..][i] == fileMap[i + 1];
      if r.Some? then Some(r.value + 1) else None
  }

  /** The path a desired name resolves to: a case-insensitive exact match, else the first entry with the same stem. */
  function Resolve(fileMap: Dict<string, string>, desired: string): Option<string>
  {
    var dn := Lower(Strip(desired));
    match Lookup(fileMap, dn)
    case Some(path) => Some(path)
    case None =>
      match FirstKey(fileMap, Stem, Stem(dn))
      case Some(i) => Some(fileMap[i].1)
      case None => None
  }

  /** The resolution of names against one file map, as a function of the name. */
  function ResolveOf(fileMap: Dict<string, string>): string -> Option<string>
  {
    desired => Resolve(fileMap, desired)
  }

  /** The paths the names resolve to, in the order of the names; an unresolved name adds nothing. */
  function Resolved(resolve: string -> Option<string>, names: seq<string>): (r: seq<string>)
    ensures |r| <= |names|
  {
    if names == [] then []
    else (match resolve(names[0]) case Some(p) => [p] case None => []) + Resolved(resolve, names[1..])
  }

  /** The search of the file map: the value of the first entry whose key maps to `base`. */
  method FindFirst(fileMap: Dict<string, string>, key: string -> string, base: string) returns (found: Option<string>)
    ensures found == (match FirstKey(fileMap, key, base) case Some(i) => Some(fileMap[i].1) case None => None)
  {
    for i := 0 to |fileMap|
      invariant forall j :: 0 <= j < i ==> key(fileMap[j].0) != base
    {
      if key(fileMap[i].0) == base {
        FirstKeyAt(fileMap, key, base, i);
        return Some(fileMap[i].1);
      }
    }
    return None;
  }

  lemma FirstKeyAt(fileMap: Dict<string, string>, key: string -> string, base: string, i: nat)
    requires i < |fileMap| && key(fileMap[i].0) == base
    requires forall j :: 0 <= j < i ==> key(fileMap[j].0) != base
    ensures FirstKey(fileMap, key, base) == Some(i)
  {
    var r := FirstKey(fileMap, key, base);
    assert r.Some? by {
      assert key(fileMap[i].0) == base;
    }
    assert !(r.value < i) by {
      assert key(fileMap[r.value].0) == base;
    }
  }

  /** The body of the loop of `collect_by_exact_names` for one desired name. */
  method ResolveName(fileMap: Dict<string, string>, desired: string) returns (found: Option<string>)
    ensures found == ResolveOf(fileMap)(desired)
  {
    var dn := Lower(Strip(desired));
    found := Lookup(fileMap, dn);
    if found.None? {
      found := FindFirst(fileMap, Stem, Stem(dn));
    }
  }

  /** `collect_by_exact_names`; a listing of None stands for an unreadable directory. */
  method CollectByExactNames(dir: string, names: seq<string>, listing: Option<seq<string>>, isFile: string -> bool)
    returns (r: seq<string>)
    ensures listing.None? ==> r == []
    ensures listing.Some? ==> r == Resolved(ResolveOf(FileMap(dir, listing.value, isFile)), names)
  {
    if listing.None? {
      return [];
    }
    var fileMap := FileMap(dir, listing.value, isFile);
    r := ResolveAll(fileMap, names);
  }

  /** The loop of `collect_by_exact_names` over the desired names. */
  method ResolveAll(fileMap: Dict<string, string>, names: seq<string>) returns (r: seq<string>)
    ensures r == Resolved(ResolveOf(fileMap), names)
  {
    r := [];
    for k := 0 to |names|
      invariant r == Resolved(ResolveOf(fileMap), names[..k])
    {
      ResolvedSnoc(ResolveOf(fileMap), names, k);
      var found := ResolveName(fileMap, names[k]);
      if found.Some? {
        r := r + [found.value];
      }
    }
    TakeAll(names);
  }

  lemma ResolvedSnoc(resolve: string -> Option<string>, names: seq<string>, k: nat)
    requires k < |names|
    ensures Resolved(resolve, names[..k + 1]) == Resolved(resolve, names[..k]) + match resolve(names[k]) case Some(p) => [p] case None => []
  {
    TakeSnoc(names, k);
    Singleton(names[k]);
    ResolvedAppend(resolve, names[..k], [names[k]]);
  }

  lemma {:induction false} ResolvedAppend(resolve: string -> Option<string>, a: seq<string>, b: seq<string>)
    ensures Resolved(resolve, a + b) == Resolved(resolve, a) + Resolved(resolve, b)
  {
    if a == [] {
      assert a + b == b;
    } else {
      var h := match resolve(a[0]) case Some(p) => [p] case None => [];
      assert (a + b)[0] == a[0];
      assert (a + b)[1..] == a[1..] + b;
      ResolvedAppend(resolve, a[1..], b);
      assert Resolved(resolve, a + b) == h + Resolved(resolve, a[1..] + b);
    }
  }

  /**
   * A name contributes exactly one path when some file matches it, and none
   * otherwise; an exact (case-insensitive) match wins over a stem match.
   */
  lemma ResolveSpec(fileMap: Dict<string, string>, desired: string)
    ensures Lookup(fileMap, Lower(Strip(desired))).Some? ==> Resolve(fileMap, desired) == Lookup(fileMap, Lower(Strip(desired)))
    ensures Resolve(fileMap, desired).None? <==>
      forall i :: 0 <= i < |fileMap| ==> fileMap[i].0 != Lower(Strip(desired)) && Stem(fileMap[i].0) != Stem(Lower(Strip(desired)))
  {
  }

  /** The results follow the order of `names`: one entry per resolved name, in turn. */
  lemma ResolvedOrder(resolve: string -> Option<string>, names: seq<string>, k: nat)
    requires k < |names|
    ensures Resolved(resolve, names) == Resolved(resolve, names[..k]) + Resolved(resolve, [names[k]]) + Resolved(resolve, names[k + 1..])
  {
    var a, b, c := names[..k], [names[k]], names[k + 1..];
    SplitAround(names, k);
    ResolvedAppend(resolve, a, b + c);
    ResolvedAppend(resolve, b, c);
    AppendAssoc(Resolved(resolve, a), Resolved(resolve, b), Resolved(resolve, c));
  }

}
