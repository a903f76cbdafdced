/**
 * Path prefixes of the REST resources (`Resource.prefix_source`, `prefix`,
 * `prefix_options`) and the parents each resource declares.
 *
 * Both `prefix_source` and `prefix` write every segment as "/<a>/<b>/" and
 * join the segments with nothing in between, so two or more segments meet at
 * a doubled slash. The functions named after the source keep that; the
 * `Corrected` ones put a single slash between segments, and the lemmas at the
 * end of the module compare the two.
 */
module Paths {
  import opened RubyString

  /**
   * ActiveSupport's `pluralize`, for the resource names this library
   * declares, all of which take a plain "s".
   */
  function Pluralize(word: string): string {
    word + "s"
  }

  /** `parent_resources` of each REST resource, in declaration order. */
  const MessageParents: seq<string> := ["project"]
  const CommentParents: seq<string> := ["post", "milestone", "todo_item"]
  const TodoListParents: seq<string> := ["project"]
  const TodoItemParents: seq<string> := ["todo_list"]
  const TimeEntryParents: seq<string> := ["project", "todo_item"]

  /**
   * An options entry: the option's name and its value as string
   * interpolation renders it.
   */
  datatype PrefixOption = PrefixOption(name: string, value: string)

  /** The inside of the segment `prefix_source` writes for one parent: "<parents>/:<parent>_id". */
  function SourcePart(parent: string): string {
    Pluralize(parent) + "/:" + parent + "_id"
  }

  /** The inside of the segment `prefix` writes for one option: "<plural of name less _id>/<value>". */
  function OptionPart(o: PrefixOption): string {
    Pluralize(Chomp(o.name, "_id")) + "/" + o.value
  }

  function SourceParts(parents: seq<string>): (ps: seq<string>)
    ensures |ps| == |parents| && forall i :: 0 <= i < |parents| ==> ps[i] == SourcePart(parents[i])
  {
    if parents == [] then [] else [SourcePart(parents[0])] + SourceParts(parents[1..])
  }

  function OptionParts(options: seq<PrefixOption>): (ps: seq<string>)
    ensures |ps| == |options| && forall i :: 0 <= i < |options| ==> ps[i] == OptionPart(options[i])
  {
    if options == [] then [] else [OptionPart(options[0])] + OptionParts(options[1..])
  }

  /** `map { ... "/#{part}/" }.join`: each part between two slashes, joined with nothing. */
  function JoinAsWritten(parts: seq<string>): string {
    if parts == [] then "" else "/" + parts[0] + "/" + JoinAsWritten(parts[1..])
  }

  /** One slash before, between and after the parts. */
  function JoinCorrected(parts: seq<string>): string {
    if parts == [] then "" else "/" + JoinTail(parts)
  }

  function JoinTail(parts: seq<string>): string {
    if parts == [] then "" else parts[0] + "/" + JoinTail(parts[1..])
  }

  /** `prefix_source`, as written. */
  function PrefixSource(parents: seq<string>): string {
    JoinAsWritten(SourceParts(parents))
  }

  /**
   * `prefix(options)`, as written: with options, one segment per option in
   * the options' iteration order; with none, whatever ActiveResource's own
   * `prefix` gives (`inherited`).
   */
  function Prefix(options: seq<PrefixOption>, inherited: string): (r: string)
    ensures options == [] ==> r == inherited
  {
    if |options| > 0 then JoinAsWritten(OptionParts(options)) else inherited
  }

  function CorrectedPrefixSource(parents: seq<string>): string {
    JoinCorrected(SourceParts(parents))
  }

  function CorrectedPrefix(options: seq<PrefixOption>, inherited: string): (r: string)
    ensures options == [] ==> r == inherited
  {
    if |options| > 0 then JoinCorrected(OptionParts(options)) else inherited
  }

  /** `prefix_options`: none once the resource has an id, otherwise ActiveResource's own. */
  function PrefixOptions<T>(hasId: bool, inherited: seq<T>): (r: seq<T>)
    ensures hasId ==> r == []
    ensures !hasId ==> r == inherited
  {
    if hasId then [] else inherited
  }

  // ---------------------------------------------------------------------------
  // Order and the template

  /** Segments keep the options' order: the prefix of a concatenation is the concatenation of prefixes. */
  lemma {:induction false} JoinAsWrittenAppend(a: seq<string>, b: seq<string>)
    ensures JoinAsWritten(a + b) == JoinAsWritten(a) + JoinAsWritten(b)
  {
    if a != [] {
      assert (a + b)[1..] == a[1..] + b;
      JoinAsWrittenAppend(a[1..], b);
    } else {
      assert a + b == b;
    }
  }

  lemma {:induction false} JoinTailAppend(a: seq<string>, b: seq<string>)
    ensures JoinTail(a + b) == JoinTail(a) + JoinTail(b)
  {
    if a != [] {
      assert (a + b)[1..] == a[1..] + b;
      JoinTailAppend(a[1..], b);
    } else {
      assert a + b == b;
    }
  }

  lemma {:induction false} OptionPartsAppend(a: seq<PrefixOption>, b: seq<PrefixOption>)
    ensures OptionParts(a + b) == OptionParts(a) + OptionParts(b)
  {
    var pa, pb := OptionParts(a), OptionParts(b);
    var l, r := OptionParts(a + b), pa + pb;
    assert |l| == |r|;
    forall i | 0 <= i < |l| ensures l[i] == r[i] {
      if i < |a| {
        assert (a + b)[i] == a[i];
        assert r[i] == pa[i];
      } else {
        assert (a + b)[i] == b[i - |a|];
        assert r[i] == pb[i - |a|];
      }
    }
  }

  /** `prefix` of the options `a` followed by `b` is `prefix(a)` followed by `prefix(b)`. */
  lemma PrefixAppend(a: seq<PrefixOption>, b: seq<PrefixOption>)
    requires a != [] && b != []
    ensures Prefix(a + b, "") == Prefix(a, "") + Prefix(b, "")
  {
    OptionPartsAppend(a, b);
    JoinAsWrittenAppend(OptionParts(a), OptionParts(b));
  }

  /** The options that give each parent's id (as "<parent>_id") its own placeholder ":<parent>_id". */
  function Placeholders(parents: seq<string>): (os: seq<PrefixOption>)
    ensures |os| == |parents|
    ensures forall i :: 0 <= i < |parents| ==> os[i] == PrefixOption(parents[i] + "_id", ":" + parents[i] + "_id")
  {
    if parents == [] then [] else [PrefixOption(parents[0] + "_id", ":" + parents[0] + "_id")] + Placeholders(parents[1..])
  }

  lemma PlaceholderParts(parents: seq<string>)
    ensures OptionParts(Placeholders(parents)) == SourceParts(parents)
  {
    var os := Placeholders(parents);
    var ps := OptionParts(os);
    forall i | 0 <= i < |parents| ensures ps[i] == SourceParts(parents)[i] {
      PlaceholderPart(parents[i]);
    }
  }

  lemma PlaceholderPart(parent: string)
    ensures OptionPart(PrefixOption(parent + "_id", ":" + parent + "_id")) == SourcePart(parent)
  {
    ChompAppended(parent, "_id");
  }

  /**
   * `prefix_source` is the template of `prefix`: giving every declared parent
   * its placeholder, in declaration order, reproduces it segment for segment
   * (and so does the corrected pair).
   */
  lemma PrefixOfPlaceholders(parents: seq<string>)
    requires parents != []
    ensures Prefix(Placeholders(parents), "") == PrefixSource(parents)
    ensures CorrectedPrefix(Placeholders(parents), "") == CorrectedPrefixSource(parents)
  {
    PlaceholderParts(parents);
  }

  // ---------------------------------------------------------------------------
  // The doubled slash, and its correction

  /** No two slashes in a row. */
  predicate SingleSlashes(s: string) {
    forall i :: 0 <= i < |s| - 1 ==> !(s[i] == '/' && s[i + 1] == '/')
  }

  /** A part that can stand between two slashes without making a doubled one. */
  predicate GoodPart(p: string) {
    p != [] && p[0] != '/' && p[|p| - 1] != '/' && SingleSlashes(p)
  }

  /**
   * As written, two or more segments always meet at "//": the first segment
   * ends with a slash and the second starts with one.
   */
  lemma AsWrittenDoublesSlash(parts: seq<string>)
    requires |parts| >= 2
    ensures !SingleSlashes(JoinAsWritten(parts))
  {
    var s := JoinAsWritten(parts);
    var first := "/" + parts[0] + "/";
    var second := "/" + parts[1] + "/";
    assert parts[1..][1..] == parts[2..];
    assert s == first + (second + JoinAsWritten(parts[2..]));
    var i := |first| - 1;
    assert s[i] == first[i] == '/';
    assert s[i + 1] == second[0] == '/';
  }

  lemma {:induction false} JoinTailSingleSlashes(parts: seq<string>)
    requires forall i :: 0 <= i < |parts| ==> GoodPart(parts[i])
    ensures SingleSlashes(JoinTail(parts))
    ensures JoinTail(parts) != [] ==> JoinTail(parts)[0] != '/'
  {
    if parts != [] {
      var p := parts[0];
      var t := JoinTail(parts[1..]);
      JoinTailSingleSlashes(parts[1..]);
      var s := p + "/" + t;
      assert JoinTail(parts) == s;
      forall i | 0 <= i < |s| - 1 ensures !(s[i] == '/' && s[i + 1] == '/') {
        if i < |p| - 1 {
          assert s[i] == p[i] && s[i + 1] == p[i + 1];
        } else if i == |p| - 1 {
          assert s[i] == p[|p| - 1];
        } else if i == |p| {
          assert s[i + 1] == t[0];
        } else {
          assert s[i] == t[i - |p| - 1] && s[i + 1] == t[i - |p|];
        }
      }
      assert s[0] == p[0];
    }
  }

  /** Corrected, the prefix has no doubled slash whenever its parts are good. */
  lemma JoinCorrectedSingleSlashes(parts: seq<string>)
    requires forall i :: 0 <= i < |parts| ==> GoodPart(parts[i])
    ensures SingleSlashes(JoinCorrected(parts))
  {
    JoinTailSingleSlashes(parts);
    if parts != [] {
      var t := JoinTail(parts);
      var s := "/" + t;
      forall i | 0 <= i < |s| - 1 ensures !(s[i] == '/' && s[i + 1] == '/') {
        if i == 0 {
          assert s[1] == t[0];
        } else {
          assert s[i] == t[i - 1] && s[i + 1] == t[i];
        }
      }
    }
  }

  /** A name without '/' and a non-empty value without '/' make a good part. */
  lemma OptionPartGood(o: PrefixOption)
    requires '/' !in o.name && o.value != [] && '/' !in o.value
    ensures GoodPart(OptionPart(o))
  {
    var c := Chomp(o.name, "_id");
    var w := Pluralize(c);
    assert '/' !in c by {
      if c != o.name {
        assert c == o.name[..|c|];
        forall i | 0 <= i < |c| ensures c[i] != '/' {
          assert c[i] == o.name[i];
        }
      }
    }
    assert '/' !in w;
    var p := OptionPart(o);
    assert p == w + "/" + o.value;
    forall i | 0 <= i < |p| - 1 ensures !(p[i] == '/' && p[i + 1] == '/') {
      if i < |w| - 1 {
        assert p[i] == w[i];
      } else if i == |w| - 1 {
        assert p[i] == w[|w| - 1];
      } else if i == |w| {
        assert p[i + 1] == o.value[0];
      } else {
        assert p[i] == o.value[i - |w| - 1];
      }
    }
    assert p[0] == w[0];
    assert p[|p| - 1] == o.value[|o.value| - 1];
  }

  /** The corrected `prefix` never writes "//" for slash-free names and non-empty slash-free values. */
  lemma CorrectedPrefixSingleSlashes(options: seq<PrefixOption>)
    requires forall i :: 0 <= i < |options| ==>
      '/' !in options[i].name && options[i].value != [] && '/' !in options[i].value
    ensures SingleSlashes(CorrectedPrefix(options, ""))
  {
    forall i | 0 <= i < |options| ensures GoodPart(OptionParts(options)[i]) {
      OptionPartGood(options[i]);
    }
    JoinCorrectedSingleSlashes(OptionParts(options));
  }

  /** For a single segment the correction changes nothing. */
  lemma CorrectedAgreesOnOneSegment(o: PrefixOption)
    ensures CorrectedPrefix([o], "") == Prefix([o], "")
  {
    JoinAsWrittenCons(OptionPart(o), []);
    JoinTailCons(OptionPart(o), []);
    assert OptionParts([o]) == [OptionPart(o)] + [];
  }

  lemma JoinAsWrittenCons(p: string, rest: seq<string>)
    ensures JoinAsWritten([p] + rest) == "/" + p + "/" + JoinAsWritten(rest)
  {
    assert ([p] + rest)[1..] == rest;
  }

  lemma JoinTailCons(p: string, rest: seq<string>)
    ensures JoinTail([p] + rest) == p + "/" + JoinTail(rest)
  {
    assert ([p] + rest)[1..] == rest;
  }

  lemma JoinTwo(p: string, q: string)
    ensures JoinAsWritten([p, q]) == "/" + p + "//" + q + "/"
    ensures JoinCorrected([p, q]) == "/" + p + "/" + q + "/"
  {
    assert [p, q] == [p] + ([q] + []);
    JoinAsWrittenCons(p, [q] + []);
    JoinAsWrittenCons(q, []);
    JoinTailCons(p, [q] + []);
    JoinTailCons(q, []);
  }

  lemma JoinThree(p: string, q: string, r: string)
    ensures JoinAsWritten([p, q, r]) == "/" + p + "//" + q + "//" + r + "/"
    ensures JoinCorrected([p, q, r]) == "/" + p + "/" + q + "/" + r + "/"
  {
    assert [p, q, r] == [p] + [q, r];
    JoinAsWrittenCons(p, [q, r]);
    JoinTailCons(p, [q, r]);
    JoinTwo(q, r);
    assert [q, r] == [q] + ([r] + []);
    JoinTailCons(q, [r] + []);
    JoinTailCons(r, []);
  }

  lemma OptionPartOfId(parent: string, value: string)
    ensures OptionPart(PrefixOption(parent + "_id", value)) == Pluralize(parent) + "/" + value
  {
    ChompAppended(parent, "_id");
  }

  /** Two id options give the two parents' segments in the options' order. */
  lemma TwoIdOptions(p: string, v: string, q: string, w: string)
    ensures Prefix([PrefixOption(p + "_id", v), PrefixOption(q + "_id", w)], "")
         == "/" + Pluralize(p) + "/" + v + "//" + Pluralize(q) + "/" + w + "/"
    ensures CorrectedPrefix([PrefixOption(p + "_id", v), PrefixOption(q + "_id", w)], "")
         == "/" + Pluralize(p) + "/" + v + "/" + Pluralize(q) + "/" + w + "/"
  {
    var x, y := Pluralize(p) + "/" + v, Pluralize(q) + "/" + w;
    TwoOptionParts(p, v, q, w);
    JoinTwo(x, y);
    SegmentsRegroup(Pluralize(p), v, Pluralize(q), w, "//");
    SegmentsRegroup(Pluralize(p), v, Pluralize(q), w, "/");
  }

  lemma TwoOptionParts(p: string, v: string, q: string, w: string)
    ensures OptionParts([PrefixOption(p + "_id", v), PrefixOption(q + "_id", w)])
         == [Pluralize(p) + "/" + v, Pluralize(q) + "/" + w]
  {
    OptionPartOfId(p, v);
    OptionPartOfId(q, w);
  }

  lemma SegmentsRegroup(a: string, v: string, b: string, w: string, sep: string)
    ensures "/" + (a + "/" + v) + sep + (b + "/" + w) + "/" == "/" + a + "/" + v + sep + b + "/" + w + "/"
  {
  }

  lemma TwoLevelAsWritten()
    ensures "/" + "projects" + "/" + "9" + "//" + "todo_items" + "/" + "3" + "/" == "/projects/9//todo_items/3/"
  {
    assert "/" + "projects" + "/" + "9" + "//" == "/projects/9//";
  }

  lemma TwoLevelCorrected()
    ensures "/" + "projects" + "/" + "9" + "/" + "todo_items" + "/" + "3" + "/" == "/projects/9/todo_items/3/"
  {
    assert "/" + "projects" + "/" + "9" + "/" == "/projects/9/";
  }

  /**
   * A time entry's two parents (`project`, `todo_item`), as `prefix` receives
   * them for a time entry of to-do 3 in project 9: as written and corrected.
   */
  lemma ProjectAndTodoItem()
    ensures Prefix([PrefixOption("project_id", "9"), PrefixOption("todo_item_id", "3")], "")
         == "/projects/9//todo_items/3/"
    ensures CorrectedPrefix([PrefixOption("project_id", "9"), PrefixOption("todo_item_id", "3")], "")
         == "/projects/9/todo_items/3/"
  {
    assert "project_id" == "project" + "_id";
    assert "todo_item_id" == "todo_item" + "_id";
    TwoIdOptions("project", "9", "todo_item", "3");
    assert Pluralize("project") == "projects";
    assert Pluralize("todo_item") == "todo_items";
    TwoLevelAsWritten();
    TwoLevelCorrected();
  }

  /**
   * Comment declares three parents, so its template doubles a slash as
   * written, and has none doubled once corrected.
   */
  lemma CommentPrefixSource()
    ensures !SingleSlashes(PrefixSource(CommentParents))
    ensures SingleSlashes(CorrectedPrefixSource(CommentParents))
  {
    AsWrittenDoublesSlash(SourceParts(CommentParents));
    var os := Placeholders(CommentParents);
    forall i | 0 <= i < |os| ensures '/' !in os[i].name && os[i].value != [] && '/' !in os[i].value {
      var p := CommentParents[i];
      assert '/' !in p;
      assert os[i].name == p + "_id" && os[i].value == ":" + p + "_id";
    }
    CorrectedPrefixSingleSlashes(os);
    PrefixOfPlaceholders(CommentParents);
  }

}
