/** JSON values, identifiers, HTTP outcomes and the small collection helpers
    shared by the server routes and the client page. */
module Values {

  /** Ids (Mongo object ids, user ids) are opaque strings. */
  type Id = string

  datatype Option<+T> = None | Some(value: T)

  /** A JSON value as it arrives in a request body or is kept in a Mixed field. */
  datatype Json =
    | JNull
    | JBool(b: bool)
    | JNum(n: int)
    | JStr(s: string)
    | JArr(items: seq<Json>)
    | JObj(fields: map<string, Json>)

  /** JavaScript's `v.key` on a JSON value other than null: `undefined` (None)
      unless `v` is an object holding `key`. */
  function Member(v: Json, key: string): (r: Option<Json>)
    ensures r.Some? <==> v.JObj? && key in v.fields
  {
    if v.JObj? && key in v.fields then Some(v.fields[key]) else None
  }

  /** JavaScript's `s.length`: the number of UTF-16 code units, so a
      character outside the Basic Multilingual Plane counts twice. Joi's and
      Mongoose's string length bounds measure with it. */
  function Utf16Length(s: string): (n: nat)
    ensures |s| <= n <= 2 * |s|
    ensures n == |s| <==> forall i | 0 <= i < |s| :: (s[i] as int) < 0x1_0000
    ensures |s| == 1 ==> n == CodeUnits(s[0])
    decreases |s|
  {
    if s == [] then 0
    else Utf16Length(s[..|s| - 1]) + CodeUnits(s[|s| - 1])
  }

  /** The UTF-16 code units of one character: one inside the Basic
      Multilingual Plane, a surrogate pair outside it. */
  function CodeUnits(c: char): nat {
    if (c as int) < 0x1_0000 then 1 else 2
  }

  /** Lengths add up: with the single-character case, this fixes the length
      of every string as the sum of its characters' code units. */
  lemma {:induction false} Utf16Concat(a: string, b: string)
    ensures Utf16Length(a + b) == Utf16Length(a) + Utf16Length(b)
    decreases |b|
  {
    if b == [] {
      assert a + b == a;
    } else {
      var b' := b[..|b| - 1];
      assert (a + b)[..|a + b| - 1] == a + b';
      Utf16Concat(a, b');
    }
  }

  /** A front-to-back `for` loop testing `entries[i].key === text`: Some(true)
      at the first entry whose member `key` is the string `text`, Some(false)
      when none is; reading a member of a null entry throws (None). */
  function FirstMatch(entries: seq<Json>, key: string, text: string): Option<bool>
    decreases |entries|
  {
    if entries == [] then Some(false)
    else if entries[0] == JNull then None
    else if Member(entries[0], key) == Some(JStr(text)) then Some(true)
    else FirstMatch(entries[1..], key, text)
  }

  /** Some entry is an object whose member `key` is the string `text`. */
  ghost predicate SomeMatch(entries: seq<Json>, key: string, text: string) {
    exists k | 0 <= k < |entries| :: Member(entries[k], key) == Some(JStr(text))
  }

  /** What the loop answers: true only when some entry matches, false only
      when none does and no entry is null, and a throw only when some entry
      is null; without null entries it answers whether some entry matches. */
  lemma {:induction false} FirstMatchMeaning(entries: seq<Json>, key: string, text: string)
    ensures FirstMatch(entries, key, text) == Some(true) ==> SomeMatch(entries, key, text)
    ensures FirstMatch(entries, key, text) == Some(false) ==>
      !SomeMatch(entries, key, text) && JNull !in entries
    ensures FirstMatch(entries, key, text).None? ==> JNull in entries
    ensures JNull !in entries ==> FirstMatch(entries, key, text) == Some(SomeMatch(entries, key, text))
    decreases |entries|
  {
    if entries != [] && entries[0] != JNull && Member(entries[0], key) != Some(JStr(text)) {
      var rest := entries[1..];
      FirstMatchMeaning(rest, key, text);
      if SomeMatch(entries, key, text) {
        var k :| 0 <= k < |entries| && Member(entries[k], key) == Some(JStr(text));
        assert rest[k - 1] == entries[k];
      }
      if SomeMatch(rest, key, text) {
        var k :| 0 <= k < |rest| && Member(rest[k], key) == Some(JStr(text));
        assert entries[k + 1] == rest[k];
      }
      if JNull in rest {
        var k :| 0 <= k < |rest| && rest[k] == JNull;
        assert entries[k + 1] == rest[k];
      }
      if JNull in entries {
        var k :| 0 <= k < |entries| && entries[k] == JNull;
        assert rest[k - 1] == entries[k];
      }
    } else if entries != [] && entries[0] != JNull {
      assert Member(entries[0], key) == Some(JStr(text));
    }
  }

  /** The loop itself, with its early exits. */
  method FindMatch(entries: seq<Json>, key: string, text: string) returns (r: Option<bool>)
    ensures r == FirstMatch(entries, key, text)
  {
    var i := 0;
    while i < |entries|
      invariant 0 <= i <= |entries|
      invariant FirstMatch(entries, key, text) == FirstMatch(entries[i..], key, text)
    {
      if entries[i] == JNull {
        return None;
      }
      if Member(entries[i], key) == Some(JStr(text)) {
        return Some(true);
      }
      assert entries[i..][1..] == entries[i + 1..];
      i := i + 1;
    }
    return Some(false);
  }

  /** The status codes the handlers answer with (400, 401, 403, 404, 500). ServerError stands for an
      exception thrown inside a handler, taken to reach the server's error
      middleware and be answered with 500. */
  datatype Status = BadRequest | Unauthorized | Forbidden | NotFound | ServerError

  /** What a handler sends: a body with status 200, or an error status. */
  datatype Response<+T> = Ok(body: T) | Fail(status: Status)

  /** `s.filter(e => e !== x)`, keeping the other elements in order. */
  function Without<T(==)>(s: seq<T>, x: T): (r: seq<T>)
    ensures |r| <= |s|
    ensures forall i | 0 <= i < |r| :: r[i] in s && r[i] != x
    ensures forall i | 0 <= i < |s| && s[i] != x :: s[i] in r
    decreases |s|
  {
    if s == [] then []
    else Without(s[..|s| - 1], x) + (if s[|s| - 1] == x then [] else [s[|s| - 1]])
  }

  /** `s.filter(p)`, or a store query `find(filter)` over a scan: the
      elements satisfying `p`, in their order. */
  function Filter<T>(s: seq<T>, p: T -> bool): (r: seq<T>)
    ensures forall i | 0 <= i < |r| :: r[i] in s && p(r[i])
    ensures forall i | 0 <= i < |s| && p(s[i]) :: s[i] in r
    decreases |s|
  {
    if s == [] then []
    else Filter(s[..|s| - 1], p) + (if p(s[|s| - 1]) then [s[|s| - 1]] else [])
  }

  /** Filtering keeps every element satisfying `p` as often as it occurs,
      and no other element. */
  lemma {:induction false} FilterCount<T>(s: seq<T>, p: T -> bool)
    ensures forall x :: multiset(Filter(s, p))[x] == if p(x) then multiset(s)[x] else 0
    decreases |s|
  {
    if s != [] {
      var init := s[..|s| - 1];
      var last := s[|s| - 1];
      FilterCount(init, p);
      assert s == init + [last];
      assert multiset(s) == multiset(init) + multiset{last};
      var tail := if p(last) then [last] else [];
      assert multiset(Filter(s, p)) == multiset(Filter(init, p)) + multiset(tail);
    }
  }

  /** Filtering distributes over concatenation: the kept elements keep their order. */
  lemma {:induction false} FilterConcat<T>(a: seq<T>, b: seq<T>, p: T -> bool)
    ensures Filter(a + b, p) == Filter(a, p) + Filter(b, p)
    decreases |b|
  {
    if b == [] {
      assert a + b == a;
    } else {
      var b' := b[..|b| - 1];
      assert (a + b)[..|a + b| - 1] == a + b';
      FilterConcat(a, b', p);
    }
  }

  /** Filtering drops exactly the occurrences of `x`. */
  lemma {:induction false} WithoutLength<T>(s: seq<T>, x: T)
    ensures |Without(s, x)| == |s| - multiset(s)[x]
    decreases |s|
  {
    if s != [] {
      var init := s[..|s| - 1];
      WithoutLength(init, x);
      assert s == init + [s[|s| - 1]];
      assert multiset(s) == multiset(init) + multiset{s[|s| - 1]};
    }
  }

  /** Filtering distributes over concatenation: the survivors keep their order. */
  lemma {:induction false} WithoutConcat<T>(a: seq<T>, b: seq<T>, x: T)
    ensures Without(a + b, x) == Without(a, x) + Without(b, x)
    decreases |b|
  {
    if b == [] {
      assert a + b == a;
    } else {
      var b' := b[..|b| - 1];
      assert (a + b)[..|a + b| - 1] == a + b';
      WithoutConcat(a, b', x);
    }
  }

  /** Filtering out a value that does not occur changes nothing. */
  lemma {:induction false} WithoutAbsent<T>(s: seq<T>, x: T)
    requires x !in s
    ensures Without(s, x) == s
    decreases |s|
  {
    if s != [] {
      WithoutAbsent(s[..|s| - 1], x);
    }
  }

  ghost predicate Distinct<T>(s: seq<T>) {
    forall i, j | 0 <= i < j < |s| :: s[i] != s[j]
  }

  lemma {:induction false} WithoutDistinct<T>(s: seq<T>, x: T)
    requires Distinct(s)
    ensures Distinct(Without(s, x))
    decreases |s|
  {
    if s != [] {
      var init := s[..|s| - 1];
      WithoutDistinct(init, x);
    }
  }

  /** `order` lists every key of `m` exactly once: the store's scan order. */
  ghost predicate Indexes<T>(order: seq<Id>, m: map<Id, T>) {
    && Distinct(order)
    && (forall k :: k in m <==> k in order)
  }

  lemma IndexesInsert<T>(order: seq<Id>, m: map<Id, T>, k: Id, v: T)
    requires Indexes(order, m) && k !in m
    ensures Indexes(order + [k], m[k := v])
  {
  }

  lemma IndexesRemove<T>(order: seq<Id>, m: map<Id, T>, k: Id)
    requires Indexes(order, m)
    ensures Indexes(Without(order, k), m - {k})
  {
    WithoutDistinct(order, k);
  }

  /** The records of `m` in the order `order` lists their keys. */
  function Scan<T>(m: map<Id, T>, order: seq<Id>): (r: seq<T>)
    requires forall k | k in order :: k in m
    ensures |r| == |order|
    decreases |order|
  {
    if order == [] then [] else Scan(m, order[..|order| - 1]) + [m[order[|order| - 1]]]
  }

  lemma {:induction false} ScanAt<T>(m: map<Id, T>, order: seq<Id>, i: nat)
    requires forall k | k in order :: k in m
    requires i < |order|
    ensures Scan(m, order)[i] == m[order[i]]
    decreases |order|
  {
    if i < |order| - 1 {
      ScanAt(m, order[..|order| - 1], i);
    }
  }

  /** A record is scanned exactly when it is stored under some listed key. */
  lemma ScanMembership<T>(m: map<Id, T>, order: seq<Id>, v: T)
    requires forall k | k in order :: k in m
    ensures v in Scan(m, order) <==> exists k | k in order :: m[k] == v
  {
    var s := Scan(m, order);
    if v in s {
      var i :| 0 <= i < |s| && s[i] == v;
      ScanAt(m, order, i);
      assert order[i] in order;
    }
    if exists k | k in order :: m[k] == v {
      var k :| k in order && m[k] == v;
      var i :| 0 <= i < |order| && order[i] == k;
      ScanAt(m, order, i);
    }
  }

  /** One more step of a front-to-back scan. */
  lemma ScanStep<T>(m: map<Id, T>, order: seq<Id>, i: nat)
    requires forall k | k in order :: k in m
    requires i < |order|
    ensures Scan(m, order[..i + 1]) == Scan(m, order[..i]) + [m[order[i]]]
  {
    assert order[..i + 1][..i] == order[..i];
  }
}
