/** utils/createCourseSearchParams.js: turning the query string of
    GET /api/courses into a Mongo filter, a sort key and a page window.
    Numbers are `real` (JavaScript numbers); `Number(x)` of a parameter is
    given as None when it is NaN (absent or not numeric). */
module CourseSearch {
  import opened Wrappers
  import opened Entities

  const DefaultPage := 1.0
  const DefaultLimit := 5.0

  const SortFields := ["createdAt", "name", "cost", "averageRating"]

  /** The comparison words the JSON rewrite turns into Mongo operators. */
  const OperatorWords := ["gt", "gte", "lt", "lte", "in"]

  /** `w` is one of the operator words, spelled out letter by letter. */
  predicate IsOperatorWord(w: string) {
    || (|w| == 2 && (w[0] == 'g' || w[0] == 'l') && w[1] == 't')
    || (|w| == 3 && (w[0] == 'g' || w[0] == 'l') && w[1] == 't' && w[2] == 'e')
    || (|w| == 2 && w[0] == 'i' && w[1] == 'n')
  }

  lemma OperatorWordsSpelled(w: string)
    ensures IsOperatorWord(w) <==> w in OperatorWords
  {
    if IsOperatorWord(w) {
      if |w| == 2 && w[0] == 'g' { assert w == "gt"; }
      else if |w| == 2 && w[0] == 'l' { assert w == "lt"; }
      else if |w| == 3 && w[0] == 'g' { assert w == "gte"; }
      else if |w| == 3 { assert w == "lte"; }
      else { assert w == "in"; }
    }
  }

  /** A parsed query-string parameter: `cost=5` is a text, `cost=5&cost=6` a
      list, `cost[gt]=5` an object of key/value pairs, nested to any depth. */
  datatype QueryValue = Text(text: string) | List(items: seq<QueryValue>) | Fields(fields: seq<(string, QueryValue)>)

  /** `queryObj`: `text` is the `$text: { $search }` clause, which always comes
      with the `score: { $meta: 'text score' }` projection. */
  datatype Query = Query(text: Option<string>, cost: Option<QueryValue>, averageRating: Option<QueryValue>)

  datatype SearchParams = SearchParams(query: Query, skip: real, limit: real, sortBy: string, page: real)

  /** The characters `\b` counts as word characters. */
  predicate IsWordChar(c: char) {
    'a' <= c <= 'z' || 'A' <= c <= 'Z' || '0' <= c <= '9' || c == '_'
  }

  /** The characters `JSON.stringify` writes as an escape whose letters
      (`\n`, `\t`, `\u0001`, ...) join the word that follows. */
  predicate IsControl(c: char) {
    c < ' '
  }

  /** The length of the run of word characters that starts `s`. */
  function WordRun(s: string): (n: nat)
    ensures n <= |s|
    ensures n < |s| ==> !IsWordChar(s[n])
    ensures s != [] && IsWordChar(s[0]) ==> n >= 1
  {
    if s == [] || !IsWordChar(s[0]) then 0 else 1 + WordRun(s[1..])
  }

  /** `w` consists of word characters only. */
  predicate IsWord(w: string) {
    WordRun(w) == |w|
  }

  /** The run that starts a text is a word. */
  lemma {:induction false} WordRunPrefix(s: string)
    ensures IsWord(s[..WordRun(s)])
  {
    if s != [] && IsWordChar(s[0]) {
      var n := WordRun(s);
      WordRunPrefix(s[1..]);
      assert s[..n] == [s[0]] + s[1..][..n - 1];
      assert ([s[0]] + s[1..][..n - 1])[1..] == s[1..][..n - 1];
    } else {
      assert s[..0] == [];
    }
  }

  /** A word followed by something that does not continue it is the run that
      starts the text. */
  lemma {:induction false} WordRunOf(w: string, u: string)
    requires IsWord(w)
    requires u == [] || !IsWordChar(u[0])
    ensures WordRun(w + u) == |w|
  {
    if w != [] {
      assert IsWordChar(w[0]);
      assert (w + u)[1..] == w[1..] + u;
      WordRunOf(w[1..], u);
    }
  }

  /** `JSON.stringify(s).replace(/\b(gt|gte|lt|lte|in)\b/g, ...)` read back by
      `JSON.parse`, from a point where no word is under way: every maximal run
      of word characters that is an operator word gains a `$`, unless a
      control character stands right before it (its escape letters then make
      the run longer than the word). `afterControl` says whether the
      character before `s` was one. */
  function RewriteFrom(s: string, afterControl: bool): (r: string)
    ensures s == [] ==> r == []
    ensures s != [] && !IsWordChar(s[0]) ==> r != [] && r[0] == s[0]
    ensures |r| >= |s|
    decreases |s|
  {
    if s == [] then []
    else if !IsWordChar(s[0]) then [s[0]] + RewriteFrom(s[1..], IsControl(s[0]))
    else
      var n := WordRun(s);
      var w := s[..n];
      (if !afterControl && IsOperatorWord(w) then "$" + w else w) + RewriteFrom(s[n..], false)
  }

  /** The rewrite of one text, a key or a value: in the JSON text it sits
      after a quote. */
  function Rewrite(s: string): string {
    RewriteFrom(s, false)
  }

  /** The inverse rewrite: drop the `$` before each operator word. */
  function Restore(s: string): string
    decreases |s|
  {
    if s == [] then []
    else if IsWordChar(s[0]) then
      var n := WordRun(s);
      s[..n] + Restore(s[n..])
    else if s[0] == '$' && IsOperatorWord(s[1..][..WordRun(s[1..])]) then
      var n := WordRun(s[1..]);
      s[1..1 + n] + Restore(s[1 + n..])
    else [s[0]] + Restore(s[1..])
  }

  /** Restoring passes over a character that is not a word character, and
      over a `$` that no operator word follows. */
  lemma RestoreOther(c: char, t: string)
    requires !IsWordChar(c)
    requires c == '$' ==> !IsOperatorWord(t[..WordRun(t)])
    ensures Restore([c] + t) == [c] + Restore(t)
  {
    assert ([c] + t)[1..] == t;
  }

  /** Restoring passes over a word. */
  lemma RestoreWord(w: string, u: string)
    requires w != [] && IsWord(w)
    requires u == [] || !IsWordChar(u[0])
    ensures Restore(w + u) == w + Restore(u)
  {
    var s := w + u;
    WordRunOf(w, u);
    assert IsWordChar(s[0]);
    assert s[..WordRun(s)] == w && s[WordRun(s)..] == u;
  }

  /** Restoring drops the `$` before an operator word. */
  lemma RestoreDollarWord(w: string, u: string)
    requires IsOperatorWord(w)
    requires IsWord(w)
    requires u == [] || !IsWordChar(u[0])
    ensures Restore("$" + w + u) == w + Restore(u)
  {
    var s := "$" + w + u;
    var t := w + u;
    assert s[1..] == t;
    WordRunOf(w, u);
    var n := WordRun(t);
    assert n == |w|;
    assert t[..n] == w;
    assert s[0] == '$' && !IsWordChar(s[0]);
    assert Restore(s) == s[1..1 + n] + Restore(s[1 + n..]);
    assert s[1..1 + n] == w && s[1 + n..] == u;
  }

  /** After a `$` of the original text, the rewrite never starts with a bare
      operator word: either the word gained its own `$`, or it is none. */
  lemma NoBareWordAfterDollar(x: string)
    ensures var t := RewriteFrom(x, false); !IsOperatorWord(t[..WordRun(t)])
  {
    var t := RewriteFrom(x, false);
    if x != [] && IsWordChar(x[0]) {
      var n := WordRun(x);
      var w := x[..n];
      var u := RewriteFrom(x[n..], false);
      if !IsOperatorWord(w) {
        assert t == w + u;
        WordRunPrefix(x);
        WordRunOf(w, u);
        assert t[..WordRun(t)] == w;
      } else {
        assert t == "$" + w + u;
      }
    }
  }

  /** The round trip over a leading character that is not a word character. */
  lemma RoundTripOther(s: string, afterControl: bool)
    requires s != [] && !IsWordChar(s[0])
    requires Restore(RewriteFrom(s[1..], IsControl(s[0]))) == s[1..]
    ensures Restore(RewriteFrom(s, afterControl)) == s
  {
    var t := RewriteFrom(s[1..], IsControl(s[0]));
    assert RewriteFrom(s, afterControl) == [s[0]] + t;
    if s[0] == '$' {
      NoBareWordAfterDollar(s[1..]);
    }
    RestoreOther(s[0], t);
    assert s == [s[0]] + s[1..];
  }

  /** The rewrite of a text that starts with a word: that word, with a `$`
      when it is an eligible operator word, then the rest. */
  lemma RewriteWordStep(s: string, afterControl: bool)
    requires s != [] && IsWordChar(s[0])
    ensures var w := s[..WordRun(s)];
      RewriteFrom(s, afterControl)
      == (if !afterControl && IsOperatorWord(w) then "$" + w else w) + RewriteFrom(s[WordRun(s)..], false)
  {
  }

  /** A text that starts with a word splits into that word and a rest that
      neither continues it nor, once rewritten, starts with a word character. */
  lemma WordSplit(s: string)
    requires s != [] && IsWordChar(s[0])
    ensures var n := WordRun(s);
      && s == s[..n] + s[n..] && s[..n] != [] && IsWord(s[..n])
      && (RewriteFrom(s[n..], false) == [] || !IsWordChar(RewriteFrom(s[n..], false)[0]))
  {
    WordRunPrefix(s);
  }

  /** The round trip over a leading word that gained a `$`. */
  lemma RoundTripDollarWord(s: string, afterControl: bool)
    requires s != [] && IsWordChar(s[0])
    requires !afterControl && IsOperatorWord(s[..WordRun(s)])
    requires Restore(RewriteFrom(s[WordRun(s)..], false)) == s[WordRun(s)..]
    ensures Restore(RewriteFrom(s, afterControl)) == s
  {
    WordSplit(s);
    RewriteWordStep(s, afterControl);
    RestoreDollarWord(s[..WordRun(s)], RewriteFrom(s[WordRun(s)..], false));
  }

  /** The round trip over a leading word that stays as it is. */
  lemma RoundTripPlainWord(s: string, afterControl: bool)
    requires s != [] && IsWordChar(s[0])
    requires !(!afterControl && IsOperatorWord(s[..WordRun(s)]))
    requires Restore(RewriteFrom(s[WordRun(s)..], false)) == s[WordRun(s)..]
    ensures Restore(RewriteFrom(s, afterControl)) == s
  {
    WordSplit(s);
    RewriteWordStep(s, afterControl);
    RestoreWord(s[..WordRun(s)], RewriteFrom(s[WordRun(s)..], false));
  }

  /** The rewrite loses nothing: restoring gives back every text, `$`-keys,
      control characters and all. */
  lemma {:induction false} RestoreRewriteFrom(s: string, afterControl: bool)
    ensures Restore(RewriteFrom(s, afterControl)) == s
    decreases |s|
  {
    if s == [] {
    } else if !IsWordChar(s[0]) {
      RestoreRewriteFrom(s[1..], IsControl(s[0]));
      RoundTripOther(s, afterControl);
    } else {
      RestoreRewriteFrom(s[WordRun(s)..], false);
      if !afterControl && IsOperatorWord(s[..WordRun(s)]) {
        RoundTripDollarWord(s, afterControl);
      } else {
        RoundTripPlainWord(s, afterControl);
      }
    }
  }

  lemma RewriteRoundTrip(s: string)
    ensures Restore(Rewrite(s)) == s
  {
    RestoreRewriteFrom(s, false);
  }

  /** No two keys merge: distinct keys stay distinct, so `JSON.parse` keeps
      every pair of the object. */
  lemma RewriteInjective(a: string, b: string)
    requires Rewrite(a) == Rewrite(b)
    ensures a == b
  {
    RewriteRoundTrip(a);
    RewriteRoundTrip(b);
  }

  /** Word characters all through make a word. */
  lemma {:induction false} AllWordChars(w: string)
    requires forall i :: 0 <= i < |w| ==> IsWordChar(w[i])
    ensures IsWord(w)
  {
    if w != [] {
      AllWordChars(w[1..]);
    }
  }

  /** A key that is exactly an operator word becomes that Mongo operator. */
  lemma RewriteOperatorWord(w: string)
    requires w in OperatorWords
    ensures Rewrite(w) == "$" + w
  {
    OperatorWordsSpelled(w);
    AllWordChars(w);
    assert w[..|w|] == w && w[|w|..] == [];
  }

  /** The rewrite works on words wherever they stand, not on whole keys: a
      key that already is `$gt` gets a second `$`. */
  lemma DollarKeyDoubled()
    ensures Rewrite("$gt") == "$$gt"
  {
    RewriteOperatorWord("gt");
    assert "$gt"[1..] == "gt";
  }

  /** An operator word at the head of a longer key gains a `$`. */
  lemma WordAtHeadOfKey()
    ensures Rewrite("gt-x") == "$gt-x"
  {
    var s := "gt-x";
    WordRunOf("gt", "-x");
    assert s == "gt" + "-x" && s[..2] == "gt" && s[2..] == "-x";
    assert "-x"[1..] == "x";
    WordRunOf("x", []);
    assert "x" + [] == "x" && "x"[..1] == "x" && "x"[1..] == [];
  }

  /** An operator word after a dot gains a `$`. */
  lemma WordAfterDot()
    ensures Rewrite("a.in") == "a.$in"
  {
    var s := "a.in";
    WordRunOf("a", ".in");
    assert s == "a" + ".in" && s[..1] == "a" && s[1..] == ".in";
    assert ".in"[1..] == "in";
    RewriteOperatorWord("in");
  }

  /** A longer word that begins with an operator word is left alone. */
  lemma LongerWordKept()
    ensures Rewrite("gte5") == "gte5"
  {
    WordRunOf("gte5", []);
    assert "gte5" + [] == "gte5" && "gte5"[..4] == "gte5" && "gte5"[4..] == [];
  }

  /** A word right after a control character is left alone: its escape
      letter joins it (`\nin`). */
  lemma WordAfterControlKept()
    ensures Rewrite("\nin") == "\nin"
  {
    var s := "\nin";
    assert s[1..] == "in";
    WordRunOf("in", []);
    assert "in" + [] == "in" && "in"[..2] == "in" && "in"[2..] == [];
  }

  /** The rewrite of a whole parameter: every text in it, keys and values
      alike, at every depth. */
  function RewriteValue(v: QueryValue): (r: QueryValue)
    ensures v.Text? ==> r == Text(Rewrite(v.text))
    ensures v.List? ==> r.List? && |r.items| == |v.items|
    ensures v.Fields? ==> r.Fields? && |r.fields| == |v.fields|
    ensures v.Fields? ==> forall i :: 0 <= i < |v.fields| ==> r.fields[i].0 == Rewrite(v.fields[i].0)
  {
    match v
    case Text(t) => Text(Rewrite(t))
    case List(items) => List(seq(|items|, i requires 0 <= i < |items| => RewriteValue(items[i])))
    case Fields(fs) => Fields(seq(|fs|, i requires 0 <= i < |fs| => (Rewrite(fs[i].0), RewriteValue(fs[i].1))))
  }

  function RestoreValue(v: QueryValue): QueryValue {
    match v
    case Text(t) => Text(Restore(t))
    case List(items) => List(seq(|items|, i requires 0 <= i < |items| => RestoreValue(items[i])))
    case Fields(fs) => Fields(seq(|fs|, i requires 0 <= i < |fs| => (Restore(fs[i].0), RestoreValue(fs[i].1))))
  }

  /** The rewrite of a parameter loses nothing, whatever its shape. */
  lemma {:induction false} ValueRoundTrip(v: QueryValue)
    ensures RestoreValue(RewriteValue(v)) == v
  {
    match v
    case Text(t) =>
      RewriteRoundTrip(t);
    case List(items) =>
      var r := RestoreValue(RewriteValue(v));
      forall i | 0 <= i < |items| ensures r.items[i] == items[i] {
        ValueRoundTrip(items[i]);
      }
    case Fields(fs) =>
      var r := RestoreValue(RewriteValue(v));
      forall i | 0 <= i < |fs| ensures r.fields[i] == fs[i] {
        RewriteRoundTrip(fs[i].0);
        ValueRoundTrip(fs[i].1);
      }
  }

  /** `if (cost)`: a text parameter is falsy when empty, a list or an object
      never is. */
  predicate RangeSupplied(p: Option<QueryValue>) {
    p.Some? && (p.value.Text? ==> p.value.text != "")
  }

  /** Lines 3-5: the sort key. */
  function SortKey(sortBy: Option<string>, direction: Option<string>): (r: string)
    ensures direction == Some("asc") ==> r in SortFields
    ensures direction != Some("asc") ==> |r| > 0 && r[0] == '-' && r[1..] in SortFields
    ensures sortBy.Some? && sortBy.value in SortFields ==>
              r == (if direction == Some("asc") then "" else "-") + sortBy.value
    ensures !(sortBy.Some? && sortBy.value in SortFields) ==>
              r == (if direction == Some("asc") then "" else "-") + "averageRating"
  {
    var prefix := if direction != Some("asc") then "-" else "";
    var field := if sortBy == Some("createdAt") then "createdAt"
                 else if sortBy == Some("name") then "name"
                 else if sortBy == Some("cost") then "cost"
                 else "averageRating";
    assert "" + field == field;
    prefix + field
  }

  /** `createCourseSearchParams(req)`. `page` and `limit` are `Number(...)`
      of the query parameters. */
  function CreateCourseSearchParams(name: Option<string>, cost: Option<QueryValue>, rating: Option<QueryValue>,
                                    sortBy: Option<string>, direction: Option<string>,
                                    page: Option<real>, limit: Option<real>): (r: SearchParams)
    ensures r.page == (if SuppliedNumber(page) then page.value else DefaultPage)
    ensures r.limit == (if SuppliedNumber(limit) then limit.value else DefaultLimit)
    ensures r.page != 0.0 && r.limit != 0.0
    ensures r.skip == (r.page - 1.0) * r.limit
    ensures r.sortBy == SortKey(sortBy, direction)
    ensures r.query.text.Some? <==> Supplied(name)
    ensures r.query.text.Some? ==> r.query.text == name
    ensures r.query.cost.Some? <==> RangeSupplied(cost)
    ensures r.query.cost.Some? ==> r.query.cost == Some(RewriteValue(cost.value))
    ensures r.query.averageRating.Some? <==> RangeSupplied(rating)
    ensures r.query.averageRating.Some? ==> r.query.averageRating == Some(RewriteValue(rating.value))
  {
    var p := if SuppliedNumber(page) then page.value else DefaultPage;
    var l := if SuppliedNumber(limit) then limit.value else DefaultLimit;
    var text := if Supplied(name) then name else None;
    var c := if RangeSupplied(cost) then Some(RewriteValue(cost.value)) else None;
    var a := if RangeSupplied(rating) then Some(RewriteValue(rating.value)) else None;
    SearchParams(Query(text, c, a), (p - 1.0) * l, l, SortKey(sortBy, direction), p)
  }

  /** A request with no parameters: first page of five, best rated first,
      no filter. */
  lemma EmptyQueryDefaults()
    ensures CreateCourseSearchParams(None, None, None, None, None, None, None)
            == SearchParams(Query(None, None, None), 0.0, 5.0, "-averageRating", 1.0)
  {
  }

  /** With the defaults and page n, the window starts after the first
      (n - 1) * 5 courses, so consecutive pages do not overlap. */
  lemma PagesTile(page: real)
    requires page != 0.0
    ensures var a := CreateCourseSearchParams(None, None, None, None, None, Some(page), None);
      var b := CreateCourseSearchParams(None, None, None, None, None, Some(page + 1.0), None);
      page + 1.0 != 0.0 ==> b.skip == a.skip + a.limit
  {
  }
}
