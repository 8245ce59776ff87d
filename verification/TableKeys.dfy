/** Keys as bytes: the bytewise order, the internal key order on top of it, and the
    short keys that separate blocks. */
module TableKeys {
  import opened Bytes
  import opened Coding

  // ---------------------------------------------------------------- the bytewise order

  predicate BytesLess(a: Data, b: Data) {
    b != [] && (a == [] || a[0] < b[0] || (a[0] == b[0] && BytesLess(a[1..], b[1..])))
  }

  lemma {:induction false} Irreflexive(a: Data)
    ensures !BytesLess(a, a)
  {
    if a != [] {
      Irreflexive(a[1..]);
    }
  }

  lemma {:induction false} Transitive(a: Data, b: Data, c: Data)
    requires BytesLess(a, b) && BytesLess(b, c)
    ensures BytesLess(a, c)
  {
    if a != [] && a[0] == b[0] && b[0] == c[0] {
      Transitive(a[1..], b[1..], c[1..]);
    }
  }

  lemma {:induction false} Total(a: Data, b: Data)
    ensures a == b || BytesLess(a, b) || BytesLess(b, a)
  {
    if a != [] && b != [] && a[0] == b[0] {
      Total(a[1..], b[1..]);
      assert a == [a[0]] + a[1..] && b == [b[0]] + b[1..];
    }
  }

  /** A common prefix does not matter. */
  lemma {:induction false} SamePrefix(p: Data, a: Data, b: Data)
    ensures BytesLess(p + a, p + b) <==> BytesLess(a, b)
  {
    if p == [] {
      assert p + a == a && p + b == b;
    } else {
      assert (p + a)[1..] == p[1..] + a && (p + b)[1..] == p[1..] + b;
      SamePrefix(p[1..], a, b);
    }
  }

  // ---------------------------------------------------------------- short keys

  /** A key that is at least `start` and, if it differs from it, below `limit`. */
  method FindShortestSeparator(start: Data, limit: Data) returns (r: Data)
    ensures r == start || (BytesLess(start, r) && BytesLess(r, limit) && |r| <= |start|)
  {
    var minLength := if |start| < |limit| then |start| else |limit|;
    var diff := 0;
    while diff < minLength && start[diff] == limit[diff]
      invariant diff <= minLength && start[..diff] == limit[..diff]
    {
      diff := diff + 1;
    }
    r := start;
    if diff < minLength {
      var b := start[diff] as int;
      if b < 0xff && b + 1 < limit[diff] as int {
        r := start[..diff] + [(b + 1) as byte];
        var p := start[..diff];
        assert start == p + start[diff..] && limit == p + limit[diff..];
        SamePrefix(p, start[diff..], [(b + 1) as byte]);
        SamePrefix(p, [(b + 1) as byte], limit[diff..]);
      }
    }
  }

  /** A key that is at least `key`, short if possible. */
  method FindShortSuccessor(key: Data) returns (r: Data)
    ensures r == key || (BytesLess(key, r) && |r| <= |key|)
  {
    for i := 0 to |key|
    {
      var b := key[i] as int;
      if b != 0xff {
        r := key[..i] + [(b + 1) as byte];
        var p := key[..i];
        assert key == p + key[i..];
        SamePrefix(p, key[i..], [(b + 1) as byte]);
        return;
      }
    }
    r := key;
  }

  // ---------------------------------------------------------------- internal keys

  const MAX_SEQUENCE: nat := 0xff_ffff_ffff_ffff
  const VALUE_TYPE_FOR_SEEK := 1

  function PackSequenceAndType(s: nat, t: nat): nat {
    s * 256 + t
  }

  predicate IsInternalKey(k: Data) {
    |k| >= 8
  }

  function ExtractUserKey(k: Data): Data
    requires IsInternalKey(k)
  {
    k[..|k| - 8]
  }

  function Tag(k: Data): nat
    requires IsInternalKey(k)
  {
    FixedValue(k[|k| - 8..])
  }

  function InternalKey(user: Data, tag: nat): (k: Data)
    ensures IsInternalKey(k) && ExtractUserKey(k) == user && k[|k| - 8..] == Fixed(tag, 8)
  {
    user + Fixed(tag, 8)
  }

  lemma InternalKeyTag(user: Data, tag: nat)
    requires tag < TWO_64
    ensures Tag(InternalKey(user, tag)) == tag
  {
    Powers();
    FixedInverse(tag, 8);
  }

  lemma {:induction false} FixedBound(b: Data)
    ensures FixedValue(b) < Power256(|b|)
  {
    if b != [] {
      FixedBound(b[1..]);
    }
  }

  lemma TagBound(k: Data)
    requires IsInternalKey(k)
    ensures Tag(k) < TWO_64
  {
    Powers();
    FixedBound(k[|k| - 8..]);
  }

  /** Increasing user key, then decreasing tag. Anything shorter than a tag is no key
      and comes last. */
  predicate Less(a: Data, b: Data) {
    IsInternalKey(a) && (IsInternalKey(b) ==>
      || BytesLess(ExtractUserKey(a), ExtractUserKey(b))
      || (ExtractUserKey(a) == ExtractUserKey(b) && Tag(a) > Tag(b)))
  }

  lemma LessTransitive(a: Data, b: Data, c: Data)
    requires IsInternalKey(b) && IsInternalKey(c) && Less(a, b) && Less(b, c)
    ensures Less(a, c)
  {
    hide BytesLess, Tag;
    if BytesLess(ExtractUserKey(a), ExtractUserKey(b)) && BytesLess(ExtractUserKey(b), ExtractUserKey(c)) {
      Transitive(ExtractUserKey(a), ExtractUserKey(b), ExtractUserKey(c));
    }
  }

  lemma LessNotAfter(a: Data, b: Data, c: Data)
    requires IsInternalKey(a) && IsInternalKey(b) && IsInternalKey(c) && Less(a, b) && !Less(c, b)
    ensures Less(a, c)
  {
    hide BytesLess, Tag;
    Total(ExtractUserKey(b), ExtractUserKey(c));
    if BytesLess(ExtractUserKey(a), ExtractUserKey(b)) && BytesLess(ExtractUserKey(b), ExtractUserKey(c)) {
      Transitive(ExtractUserKey(a), ExtractUserKey(b), ExtractUserKey(c));
    }
  }

  lemma NotLessThenLess(a: Data, b: Data, c: Data)
    requires IsInternalKey(a) && IsInternalKey(b) && IsInternalKey(c) && !Less(b, a) && Less(b, c)
    ensures Less(a, c)
  {
    hide BytesLess, Tag;
    Total(ExtractUserKey(a), ExtractUserKey(b));
    if BytesLess(ExtractUserKey(a), ExtractUserKey(b)) && BytesLess(ExtractUserKey(b), ExtractUserKey(c)) {
      Transitive(ExtractUserKey(a), ExtractUserKey(b), ExtractUserKey(c));
    }
  }

  /** What follows a key that is not before `c` is not before it either. */
  lemma LessNotBefore(a: Data, b: Data, c: Data)
    requires IsInternalKey(a) && IsInternalKey(b) && IsInternalKey(c) && Less(a, b) && !Less(a, c)
    ensures !Less(b, c)
  {
    hide Less, IsInternalKey;
    if Less(b, c) {
      LessTransitive(a, b, c);
    }
  }

  /** Neither before the other: same user key and same tag. */
  lemma LessTotal(a: Data, b: Data)
    requires IsInternalKey(a) && IsInternalKey(b)
    ensures Less(a, b) || Less(b, a) || (ExtractUserKey(a) == ExtractUserKey(b) && Tag(a) == Tag(b))
  {
    Total(ExtractUserKey(a), ExtractUserKey(b));
  }

  const SEEK_TAG := PackSequenceAndType(MAX_SEQUENCE, VALUE_TYPE_FOR_SEEK)

  /** Either the key itself, or a shorter user key strictly between, with the tag that
      comes first. */
  ghost predicate Separates(start: Data, limit: Data, r: Data)
    requires IsInternalKey(start) && IsInternalKey(limit)
  {
    r == start || (
      && IsInternalKey(r) && Tag(r) == SEEK_TAG
      && BytesLess(ExtractUserKey(start), ExtractUserKey(r))
      && BytesLess(ExtractUserKey(r), ExtractUserKey(limit)))
  }

  method FindShortestInternalSeparator(start: Data, limit: Data) returns (r: Data)
    requires IsInternalKey(start) && IsInternalKey(limit)
    ensures Separates(start, limit, r) && |r| <= |start|
  {
    hide BytesLess;
    var userStart, userLimit := ExtractUserKey(start), ExtractUserKey(limit);
    var tmp := FindShortestSeparator(userStart, userLimit);
    r := start;
    if |tmp| < |userStart| && BytesLess(userStart, tmp) {
      r := InternalKey(tmp, SEEK_TAG);
      InternalKeyTag(tmp, SEEK_TAG);
    }
  }

  ghost predicate Succeeds(key: Data, r: Data)
    requires IsInternalKey(key)
  {
    r == key || (IsInternalKey(r) && Tag(r) == SEEK_TAG && BytesLess(ExtractUserKey(key), ExtractUserKey(r)))
  }

  method FindShortInternalSuccessor(key: Data) returns (r: Data)
    requires IsInternalKey(key)
    ensures Succeeds(key, r) && |r| <= |key|
  {
    hide BytesLess;
    var userKey := ExtractUserKey(key);
    var tmp := FindShortSuccessor(userKey);
    r := key;
    if |tmp| < |userKey| && BytesLess(userKey, tmp) {
      r := InternalKey(tmp, SEEK_TAG);
      InternalKeyTag(tmp, SEEK_TAG);
    }
  }

  /** A separator is at or after everything up to `start` and before everything from
      `limit` on. */
  lemma SeparatorOrder(start: Data, limit: Data, r: Data)
    requires IsInternalKey(start) && IsInternalKey(limit) && Less(start, limit) && Separates(start, limit, r)
    ensures IsInternalKey(r) && !Less(r, start) && Less(r, limit)
  {
    hide Tag;
    var us, ur := ExtractUserKey(start), if r == start then ExtractUserKey(start) else ExtractUserKey(r);
    Irreflexive(us);
    if r != start && BytesLess(ur, us) {
      Transitive(us, ur, us);
    }
  }

  lemma SuccessorOrder(key: Data, r: Data)
    requires IsInternalKey(key) && Succeeds(key, r)
    ensures IsInternalKey(r) && !Less(r, key)
  {
    hide Tag;
    var uk, ur := ExtractUserKey(key), if r == key then ExtractUserKey(key) else ExtractUserKey(r);
    Irreflexive(uk);
    if r != key && BytesLess(ur, uk) {
      Transitive(uk, ur, uk);
    }
  }
}
