/** Text operations the services use: joining, splitting, replacing one character, and the
    byte order of Rust strings. */
module Strings {
  datatype Option<+T> = None | Some(value: T)

  /** Length in bytes of the UTF-8 form of `s`, which is what `str::len` returns. */
  function Utf8Len(s: string): (n: nat)
    ensures n >= |s|
  {
    if s == [] then 0 else Utf8Width(s[0]) + Utf8Len(s[1..])
  }

  function Utf8Width(c: char): (n: nat)
    ensures 1 <= n <= 4
  {
    if c < '\U{80}' then 1 else if c < '\U{800}' then 2 else if c < '\U{10000}' then 3 else 4
  }

  predicate All(s: string, p: char -> bool) {
    forall i :: 0 <= i < |s| ==> p(s[i])
  }

  predicate IsDigit(c: char) { '0' <= c <= '9' }

  predicate IsAscii(c: char) { c < '\U{80}' }

  lemma {:induction false} AsciiLen(s: string)
    requires All(s, IsAscii)
    ensures Utf8Len(s) == |s|
  {
    if s != [] { AsciiLen(s[1..]); }
  }

  function Join(parts: seq<string>, sep: string): string {
    if |parts| == 0 then ""
    else if |parts| == 1 then parts[0]
    else parts[0] + sep + Join(parts[1..], sep)
  }

  /** Rust's `split`: the pieces between occurrences of `d`; never an empty list. */
  function Split(s: string, d: char): (parts: seq<string>)
    ensures |parts| > 0
  {
    if s == [] then [""]
    else
      var rest := Split(s[1..], d);
      if s[0] == d then [""] + rest else [[s[0]] + rest[0]] + rest[1..]
  }

  /** Rust's `replace` for a one-character pattern. */
  function Replace(s: string, from: char, to: string): string {
    if s == [] then "" else (if s[0] == from then to else [s[0]]) + Replace(s[1..], from, to)
  }

  lemma {:induction false} SplitWithout(s: string, d: char)
    requires d !in s
    ensures Split(s, d) == [s]
  {
    if s != [] {
      SplitWithout(s[1..], d);
      assert [s[0]] + s[1..] == s;
    }
  }

  /** A delimiter after a piece that does not contain it ends that piece. */
  lemma {:induction false} SplitPiece(a: string, d: char, b: string)
    requires d !in a
    ensures Split(a + [d] + b, d) == [a] + Split(b, d)
  {
    var s := a + [d] + b;
    if a == [] {
      assert s[0] == d && s[1..] == b;
    } else {
      SplitPiece(a[1..], d, b);
      assert s[0] == a[0] && s[1..] == a[1..] + [d] + b;
      assert [a[0]] + a[1..] == a;
    }
  }

  /** Splitting undoes joining. */
  lemma {:induction false} SplitOfJoin(parts: seq<string>, d: char)
    requires |parts| > 0
    requires forall i :: 0 <= i < |parts| ==> d !in parts[i]
    ensures Split(Join(parts, [d]), d) == parts
  {
    if |parts| == 1 {
      SplitWithout(parts[0], d);
    } else {
      SplitOfJoin(parts[1..], d);
      SplitPiece(parts[0], d, Join(parts[1..], [d]));
      assert [parts[0]] + parts[1..] == parts;
    }
  }

  /** Joining undoes splitting, and no piece holds the delimiter. */
  lemma {:induction false} JoinOfSplit(s: string, d: char)
    ensures Join(Split(s, d), [d]) == s
    ensures forall i :: 0 <= i < |Split(s, d)| ==> d !in Split(s, d)[i]
  {
    if s != [] {
      JoinOfSplit(s[1..], d);
      var rest := Split(s[1..], d);
      var parts := Split(s, d);
      assert [s[0]] + s[1..] == s;
      if s[0] == d {
        assert parts[1..] == rest;
        assert Join(parts, [d]) == "" + [d] + Join(rest, [d]);
      } else if |rest| > 1 {
        assert parts[1..] == rest[1..];
        assert Join(parts, [d]) == [s[0]] + (rest[0] + [d] + Join(rest[1..], [d]));
      }
    }
  }

  /** Strict order of `String` keys: UTF-8 byte order, which is code point order. */
  predicate Less(a: string, b: string) {
    if b == [] then false
    else if a == [] then true
    else if a[0] != b[0] then a[0] < b[0]
    else Less(a[1..], b[1..])
  }

  /** The first difference decides; a proper prefix comes first. */
  lemma {:induction false} LessIsLexicographic(a: string, b: string)
    ensures Less(a, b) <==>
            exists k :: 0 <= k <= |a| && k < |b| && a[..k] == b[..k] && (k == |a| || a[k] < b[k])
  {
    if a != [] && b != [] && a[0] == b[0] {
      LessIsLexicographic(a[1..], b[1..]);
      if k :| 0 <= k <= |a| - 1 && k < |b| - 1 && a[1..][..k] == b[1..][..k] && (k == |a| - 1 || a[1..][k] < b[1..][k]) {
        assert a[..k + 1] == [a[0]] + a[1..][..k] && b[..k + 1] == [b[0]] + b[1..][..k];
        assert a[..k + 1] == b[..k + 1];
      }
      if k :| 0 <= k <= |a| && k < |b| && a[..k] == b[..k] && (k == |a| || a[k] < b[k]) {
        assert k > 0;
        assert a[1..][..k - 1] == a[..k][1..] && b[1..][..k - 1] == b[..k][1..];
        assert a[1..][..k - 1] == b[1..][..k - 1];
      }
    } else if b != [] {
      assert a[..0] == b[..0];
      if k :| 0 <= k <= |a| && k < |b| && a[..k] == b[..k] && (k == |a| || a[k] < b[k]) {
        assert k > 0 ==> a[..k][0] == b[..k][0];
      }
    }
  }

  lemma {:induction false} LessTransitive(a: string, b: string, c: string)
    requires Less(a, b) && Less(b, c)
    ensures Less(a, c)
  {
    if a != [] && a[0] == b[0] && b[0] == c[0] { LessTransitive(a[1..], b[1..], c[1..]); }
  }

  lemma {:induction false} LessIrreflexive(a: string)
    ensures !Less(a, a)
  {
    if a != [] { LessIrreflexive(a[1..]); }
  }

  lemma {:induction false} LessTotal(a: string, b: string)
    ensures a == b || Less(a, b) || Less(b, a)
  {
    if a != [] && b != [] && a[0] == b[0] {
      LessTotal(a[1..], b[1..]);
      if a[1..] == b[1..] { assert a == [a[0]] + a[1..]; assert b == [b[0]] + b[1..]; }
    }
  }

  /** The text after the last `@`, if there is one. */
  function DomainPart(address: string): Option<string> {
    if address == [] then None
    else match DomainPart(address[1..])
      case Some(d) => Some(d)
      case None => if address[0] == '@' then Some(address[1..]) else None
  }

  lemma {:induction false} DomainPartOf(before: string, domain: string)
    requires '@' !in domain
    ensures DomainPart(before + "@" + domain) == Some(domain)
  {
    var s := before + "@" + domain;
    if before == [] {
      assert s[0] == '@' && s[1..] == domain;
      NoDomainPart(domain);
    } else {
      DomainPartOf(before[1..], domain);
      assert s[1..] == before[1..] + "@" + domain;
    }
  }

  lemma {:induction false} NoDomainPart(s: string)
    requires '@' !in s
    ensures DomainPart(s) == None
  {
    if s != [] { NoDomainPart(s[1..]); }
  }

  lemma {:induction false} DomainPartIsSuffix(address: string)
    ensures match DomainPart(address)
            case Some(d) =>
              && '@' !in d && |d| < |address|
              && address == address[..|address| - |d| - 1] + "@" + d
            case None => '@' !in address
  {
    if address != [] {
      DomainPartIsSuffix(address[1..]);
      match DomainPart(address[1..])
      case Some(d) =>
        assert address[1..] == address[1..][..|address| - 1 - |d| - 1] + "@" + d;
        assert address == [address[0]] + address[1..];
      case None =>
        assert address == [address[0]] + address[1..];
    }
  }

  /** What holds of all prefixes of a run, and of all its steps, split at the last event. */
  lemma AllPrefixes<E>(holds: seq<E> -> bool, init: seq<E>, events: seq<E>)
    requires events != [] && init == events[..|events| - 1]
    ensures (forall k :: 0 <= k <= |events| ==> holds(events[..k])) <==>
            (forall k :: 0 <= k <= |init| ==> holds(init[..k])) && holds(events)
  {
    assert forall k :: 0 <= k <= |init| ==> init[..k] == events[..k];
    assert events[..|events|] == events;
  }

  lemma AllSteps<E>(holds: (seq<E>, E) -> bool, init: seq<E>, events: seq<E>)
    requires events != [] && init == events[..|events| - 1]
    ensures (forall k :: 0 <= k < |events| ==> holds(events[..k], events[k])) <==>
            (forall k :: 0 <= k < |init| ==> holds(init[..k], init[k])) && holds(init, events[|init|])
  {
    assert forall k :: 0 <= k < |init| ==> init[..k] == events[..k] && init[k] == events[k];
  }
}
