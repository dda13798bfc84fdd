/**
  Which exported URLs get a service definition (metadata/service_definition.go): one
  per service, chosen the same way whatever the order of the URLs.
*/
module ServiceDefinitions {
  import opened Options
  import opened UrlValues
  import opened Strings

  const DUBBO_PROTOCOL := "dubbo"
  const TRI_PROTOCOL := "tri"
  const SERVICE_INFO_KEY := "service-info"

  /** `describable`: Dubbo, and Triple without a service description of its own. */
  predicate Describable(u: UrlValue) {
    u.protocol == DUBBO_PROTOCOL || (u.protocol == TRI_PROTOCOL && SERVICE_INFO_KEY !in u.attributes)
  }

  /** A describable URL with its service key. */
  datatype Export = Export(key: string, url: UrlValue)

  type Exports = seq<Option<Export>>

  /** What the selection sees of an exported URL; nil and the indescribable are passed over. */
  function Seen(u: Option<UrlValue>): Option<Export> {
    if u.None? || !Describable(u.value) then None else Some(Export(ServiceKeyOf(u.value), u.value))
  }

  function SeenAll(urls: seq<Option<UrlValue>>): Exports {
    seq(|urls|, i requires 0 <= i < |urls| => Seen(urls[i]))
  }

  // ---------------------------------------------------------- what is promised

  /** Position `i`, among the first `n`, is a URL of the service `key`. */
  predicate Candidate(exports: Exports, n: int, i: int, key: string)
    requires n <= |exports|
  {
    0 <= i < n && exports[i].Some? && exports[i].value.key == key
  }

  /** Position `i` is the first of the candidates with the least protocol. */
  ghost predicate Best(exports: Exports, n: int, i: int, key: string)
    requires n <= |exports|
  {
    && Candidate(exports, n, i, key)
    && forall j | Candidate(exports, n, j, key) ::
         AtMost(exports[i].value.url.protocol, exports[j].value.url.protocol) &&
         (j < i ==> exports[j].value.url.protocol != exports[i].value.url.protocol)
  }

  /** `e` is the URL to describe its service by. */
  ghost predicate IsBest(exports: Exports, n: int, e: Export)
    requires n <= |exports|
  {
    exists i :: Best(exports, n, i, e.key) && exports[i] == Some(e)
  }

  function KeysOf(out: seq<Export>): seq<string> {
    seq(|out|, n requires 0 <= n < |out| => out[n].key)
  }

  /** The best URL of each service, in increasing order of the service keys. */
  ghost predicate Deduped(exports: Exports, out: seq<Export>) {
    && Increasing(KeysOf(out))
    && (forall e <- out :: IsBest(exports, |exports|, e))
    && (forall i, key: string | Candidate(exports, |exports|, i, key) :: key in KeysOf(out))
  }

  // -------------------------------------------------------------- selection

  /** One step of the selection loop. */
  function SelectStep(selected: map<string, Export>, e: Option<Export>): map<string, Export> {
    if e.None? then selected
    else if e.value.key in selected && AtMost(selected[e.value.key].url.protocol, e.value.url.protocol) then selected
    else selected[e.value.key := e.value]
  }

  /** `selected` holds the best URL of each service among the first `n`. */
  ghost predicate BestOfFirst(exports: Exports, n: nat, selected: map<string, Export>)
    requires n <= |exports|
  {
    && (forall key <- selected :: selected[key].key == key && IsBest(exports, n, selected[key]))
    && (forall i, key: string | Candidate(exports, n, i, key) :: key in selected)
  }

  /** An earlier choice stays the best one if the next URL does not beat it. */
  lemma KeepsBest(exports: Exports, n: nat, e: Export)
    requires n < |exports| && IsBest(exports, n, e)
    requires exports[n].Some? && exports[n].value.key == e.key ==>
               AtMost(e.url.protocol, exports[n].value.url.protocol)
    ensures IsBest(exports, n + 1, e)
  {
    var i :| Best(exports, n, i, e.key) && exports[i] == Some(e);
    var m := n + 1;
    forall j | Candidate(exports, m, j, e.key)
      ensures AtMost(e.url.protocol, exports[j].value.url.protocol) &&
              (j < i ==> exports[j].value.url.protocol != e.url.protocol)
    {
      assert j < n ==> Candidate(exports, n, j, e.key);
    }
    assert Best(exports, m, i, e.key);
  }

  /** The next URL becomes the best one if there was none or it beats it. */
  lemma NewBest(exports: Exports, n: nat, selected: map<string, Export>, e: Export)
    requires n < |exports| && BestOfFirst(exports, n, selected) && exports[n] == Some(e)
    requires e.key in selected ==> !AtMost(selected[e.key].url.protocol, e.url.protocol)
    ensures IsBest(exports, n + 1, e)
  {
    var m: int := n + 1;
    forall j | Candidate(exports, m, j, e.key)
      ensures AtMost(e.url.protocol, exports[j].value.url.protocol) &&
              (j < n ==> exports[j].value.url.protocol != e.url.protocol)
    {
      if j < n {
        assert Candidate(exports, n, j, e.key);
        var was := selected[e.key];
        var i :| Best(exports, n, i, e.key) && exports[i] == Some(was);
        LessTotal(was.url.protocol, e.url.protocol);
        LessThenAtMost(e.url.protocol, was.url.protocol, exports[j].value.url.protocol);
      }
    }
    assert Best(exports, m, n, e.key);
  }

  lemma LessThenAtMost(a: string, b: string, c: string)
    requires Less(a, b) && AtMost(b, c)
    ensures Less(a, c) && a != c
  {
    if b != c {
      LessTransitive(a, b, c);
    }
    if a == c {
      LessIrreflexive(a);
    }
  }

  lemma SelectStepKeepsBest(exports: Exports, n: nat, selected: map<string, Export>, m: nat, next: map<string, Export>)
    requires n < |exports| && BestOfFirst(exports, n, selected)
    requires m == n + 1 && next == SelectStep(selected, exports[n])
    ensures BestOfFirst(exports, m, next)
  {
    forall key | key in next
      ensures next[key].key == key && IsBest(exports, m, next[key])
    {
      if key in selected && next[key] == selected[key] {
        SettledStaysBest(exports, n, selected, key);
      } else {
        NewBest(exports, n, selected, exports[n].value);
      }
    }
    forall i, key: string | Candidate(exports, m, i, key)
      ensures key in next
    {
      assert i < n ==> Candidate(exports, n, i, key);
    }
  }

  lemma SettledStaysBest(exports: Exports, n: nat, selected: map<string, Export>, key: string)
    requires n < |exports| && BestOfFirst(exports, n, selected) && key in selected
    requires SelectStep(selected, exports[n])[key] == selected[key]
    ensures IsBest(exports, n + 1, selected[key])
  {
    KeepsBest(exports, n, selected[key]);
  }

  /** The selection after the first `n` URLs. */
  function Selection(exports: Exports, n: nat): map<string, Export>
    requires n <= |exports|
  {
    if n == 0 then map[] else SelectStep(Selection(exports, n - 1), exports[n - 1])
  }

  lemma {:induction false} SelectionIsBest(exports: Exports, n: nat)
    requires n <= |exports|
    ensures BestOfFirst(exports, n, Selection(exports, n))
  {
    if n > 0 {
      SelectionIsBest(exports, n - 1);
      SelectStepKeepsBest(exports, n - 1, Selection(exports, n - 1), n, Selection(exports, n));
    }
  }

  /** The selection loop. */
  method Select(urls: seq<Option<UrlValue>>) returns (selected: map<string, Export>)
    ensures selected == Selection(SeenAll(urls), |urls|)
  {
    selected := map[];
    for n := 0 to |urls|
      invariant selected == Selection(SeenAll(urls), n)
    {
      var u := urls[n];
      if u.None? || !Describable(u.value) {
        continue;
      }
      var key := ServiceKeyOf(u.value);
      if key in selected && AtMost(selected[key].url.protocol, u.value.protocol) {
        continue;
      }
      selected := selected[key := Export(key, u.value)];
    }
  }

  /** URLs with their service keys. */
  function Described(urls: seq<UrlValue>): seq<Export> {
    seq(|urls|, n requires 0 <= n < |urls| => Export(ServiceKeyOf(urls[n]), urls[n]))
  }

  lemma EntryKey(urls: seq<Option<UrlValue>>, e: Export)
    requires IsBest(SeenAll(urls), |urls|, e)
    ensures e.key == ServiceKeyOf(e.url)
  {
  }

  /** `dedupeByService`: select, sort the keys, and list the selection in their order. */
  method DedupeByService(urls: seq<Option<UrlValue>>) returns (out: seq<UrlValue>)
    ensures Deduped(SeenAll(urls), Described(out))
  {
    var selected := Select(urls);
    SelectionIsBest(SeenAll(urls), |urls|);
    var keys := SortKeys(selected.Keys);
    out := [];
    for n := 0 to |keys|
      invariant |out| == n
      invariant forall m | 0 <= m < n :: keys[m] in selected && out[m] == selected[keys[m]].url
    {
      out := out + [selected[keys[n]].url];
    }
    forall m | 0 <= m < |keys|
      ensures Described(out)[m] == selected[keys[m]]
    {
      EntryKey(urls, selected[keys[m]]);
    }
    ListedIsDeduped(SeenAll(urls), selected, keys, Described(out));
  }

  lemma ListedIsDeduped(exports: Exports, selected: map<string, Export>, keys: seq<string>, out: seq<Export>)
    requires BestOfFirst(exports, |exports|, selected)
    requires Increasing(keys) && forall x: string :: x in keys <==> x in selected
    requires |out| == |keys| && forall m | 0 <= m < |keys| :: keys[m] in selected && out[m] == selected[keys[m]]
    ensures Deduped(exports, out)
  {
    assert KeysOf(out) == keys;
  }

  // ------------------------------------------------------------ the theorems

  /** Reordering the URLs reorders what the selection sees of them. */
  lemma {:induction false} SeenOfPermuted(a: seq<Option<UrlValue>>, b: seq<Option<UrlValue>>, i: int) returns (j: int)
    requires multiset(a) == multiset(b) && 0 <= i < |a|
    ensures 0 <= j < |b| && SeenAll(b)[j] == SeenAll(a)[i]
  {
    assert a[i] in multiset(a);
    assert a[i] in b;
    j :| 0 <= j < |b| && b[j] == a[i];
  }

  /** The keys and protocols of a result, in order. */
  function Pairs(out: seq<Export>): seq<(string, string)> {
    seq(|out|, n requires 0 <= n < |out| => (out[n].key, out[n].url.protocol))
  }

  /** A service described for one order is described, no worse, for any other. */
  lemma DescribedForAny(a: seq<Option<UrlValue>>, b: seq<Option<UrlValue>>, x: seq<Export>, y: seq<Export>, e: Export)
    returns (f: Export)
    requires multiset(a) == multiset(b) && Deduped(SeenAll(a), x) && Deduped(SeenAll(b), y) && e in x
    ensures f in y && f.key == e.key && AtMost(f.url.protocol, e.url.protocol)
  {
    var p, q := SeenAll(a), SeenAll(b);
    assert IsBest(p, |p|, e);
    var i :| Best(p, |p|, i, e.key) && p[i] == Some(e);
    var j := SeenOfPermuted(a, b, i);
    assert Candidate(q, |q|, j, e.key);
    assert e.key in KeysOf(y);
    var n :| 0 <= n < |y| && y[n].key == e.key;
    f := y[n];
    assert IsBest(q, |q|, f);
  }

  /** Increasing keys are distinct, so a key identifies its entry. */
  lemma SameEntry(out: seq<Export>, e: Export, f: Export)
    requires Increasing(KeysOf(out)) && e in out && f in out && e.key == f.key
    ensures e == f
  {
    var i :| 0 <= i < |out| && out[i] == e;
    var j :| 0 <= j < |out| && out[j] == f;
    LessIrreflexive(e.key);
    assert KeysOf(out)[i] == KeysOf(out)[j];
  }

  lemma KeyInOut(out: seq<Export>, key: string) returns (e: Export)
    requires key in KeysOf(out)
    ensures e in out && e.key == key
  {
    var n :| 0 <= n < |out| && KeysOf(out)[n] == key;
    e := out[n];
  }

  lemma SameKeys(a: seq<Option<UrlValue>>, b: seq<Option<UrlValue>>, x: seq<Export>, y: seq<Export>, key: string)
    requires multiset(a) == multiset(b) && Deduped(SeenAll(a), x) && Deduped(SeenAll(b), y) && key in KeysOf(x)
    ensures key in KeysOf(y)
  {
    var e := KeyInOut(x, key);
    var f := DescribedForAny(a, b, x, y, e);
    var n :| 0 <= n < |y| && y[n] == f;
    assert KeysOf(y)[n] == key;
  }

  lemma SameProtocol(
      a: seq<Option<UrlValue>>, b: seq<Option<UrlValue>>, x: seq<Export>, y: seq<Export>, e: Export, f: Export)
    requires multiset(a) == multiset(b) && Deduped(SeenAll(a), x) && Deduped(SeenAll(b), y)
    requires e in x && f in y && e.key == f.key
    ensures e.url.protocol == f.url.protocol
  {
    var f' := DescribedForAny(a, b, x, y, e);
    var e' := DescribedForAny(b, a, y, x, f);
    SameEntry(y, f, f');
    SameEntry(x, e, e');
    AtMostAntisymmetric(e.url.protocol, f.url.protocol);
  }

  /** Any order of the same URLs gives the same services with the same protocols, in the same order. */
  lemma OrderDoesNotMatter(a: seq<Option<UrlValue>>, b: seq<Option<UrlValue>>, x: seq<Export>, y: seq<Export>)
    requires multiset(a) == multiset(b) && Deduped(SeenAll(a), x) && Deduped(SeenAll(b), y)
    ensures Pairs(x) == Pairs(y)
  {
    forall key: string
      ensures key in KeysOf(x) <==> key in KeysOf(y)
    {
      if key in KeysOf(x) { SameKeys(a, b, x, y, key); }
      if key in KeysOf(y) { SameKeys(b, a, y, x, key); }
    }
    IncreasingIsUnique(KeysOf(x), KeysOf(y));
    assert |x| == |KeysOf(x)| && |y| == |KeysOf(y)|;
    forall n | 0 <= n < |x|
      ensures Pairs(x)[n] == Pairs(y)[n]
    {
      assert KeysOf(x)[n] == KeysOf(y)[n];
      SameProtocol(a, b, x, y, x[n], y[n]);
    }
  }

  /**
    What is listed and what is not: every listed URL is a Dubbo URL or a Triple URL without a
    service description of its own, and every service with such a URL is listed.
  */
  lemma OnlyDescribable(urls: seq<Option<UrlValue>>, out: seq<Export>)
    requires Deduped(SeenAll(urls), out)
    ensures forall e <- out ::
              e.url.protocol == "dubbo" || (e.url.protocol == "tri" && "service-info" !in e.url.attributes)
    ensures forall e <- out :: Some(e.url) in urls && e.key == ServiceKeyOf(e.url)
    ensures forall u <- urls | u.Some? &&
              (u.value.protocol == "dubbo" || (u.value.protocol == "tri" && "service-info" !in u.value.attributes)) ::
              ServiceKeyOf(u.value) in KeysOf(out)
  {
    var exports := SeenAll(urls);
    forall e | e in out
      ensures Some(e.url) in urls && Seen(Some(e.url)) == Some(e)
    {
      assert IsBest(exports, |exports|, e);
      var i :| Best(exports, |exports|, i, e.key) && exports[i] == Some(e);
      assert urls[i] == Some(e.url);
    }
    forall u | u in urls && u.Some? && Describable(u.value)
      ensures ServiceKeyOf(u.value) in KeysOf(out)
    {
      var i :| 0 <= i < |urls| && urls[i] == u;
      assert Candidate(exports, |exports|, i, ServiceKeyOf(u.value));
    }
  }

  /** A service exported over Dubbo is described by a Dubbo URL. */
  lemma DubboComesFirst(urls: seq<Option<UrlValue>>, out: seq<Export>, e: Export, i: int)
    requires Deduped(SeenAll(urls), out) && e in out
    requires 0 <= i < |urls| && urls[i].Some? && urls[i].value.protocol == DUBBO_PROTOCOL
    requires ServiceKeyOf(urls[i].value) == e.key
    ensures e.url.protocol == DUBBO_PROTOCOL
  {
    var exports := SeenAll(urls);
    assert IsBest(exports, |exports|, e);
    var j :| Best(exports, |exports|, j, e.key) && exports[j] == Some(e);
    assert Candidate(exports, |exports|, i, e.key);
    assert AtMost(e.url.protocol, DUBBO_PROTOCOL);
    assert Describable(e.url);
    assert !AtMost(TRI_PROTOCOL, DUBBO_PROTOCOL) by {
      assert TRI_PROTOCOL[0] == 't' && DUBBO_PROTOCOL[0] == 'd';
    }
  }
}
