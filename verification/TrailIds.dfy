/** The content-derived trail id of closure.py: what is hashed determines the trail. */
module TrailIds {
  import opened Common
  import opened ManagedObjectIds

  /** `"|".join(parts)`. */
  function Join(parts: seq<string>): string {
    if parts == [] then ""
    else if |parts| == 1 then parts[0]
    else Join(parts[..|parts|-1]) + "|" + parts[|parts|-1]
  }

  function PreImage(domain: string, snapshotId: string, members: seq<string>): string {
    Join([domain, snapshotId] + members)
  }

  /** The hash is a parameter; only its first 24 characters are used. */
  function DeterministicId(hash: string -> string, domain: string, snapshotId: string, members: seq<string>): string {
    var digest := hash(PreImage(domain, snapshotId, members));
    "trail-" + if |digest| <= 24 then digest else digest[..24]
  }

  /** The position after the last `c`, or 0 when there is none. */
  function AfterLast(s: string, c: char): (k: nat)
    ensures k <= |s|
  {
    if s == "" then 0 else if s[|s|-1] == c then |s| else AfterLast(s[..|s|-1], c)
  }

  /** Reads the members back from the right: the last colon ends the last object type, and the
      last separator before it starts that type. */
  function Decode(s: string): seq<string>
    decreases |s|
  {
    var colon := AfterLast(s, ':');
    if colon == 0 then []
    else
      var start := AfterLast(s[..colon-1], '|');
      if start == 0 then [s] else Decode(s[..start-1]) + [s[start..]]
  }

  lemma {:induction false} AfterLastIs(front: string, c: char, tail: string)
    requires c !in tail
    ensures AfterLast(front + [c] + tail, c) == |front| + 1
    decreases |tail|
  {
    var s := front + [c] + tail;
    if tail != [] {
      AfterLastIs(front, c, tail[..|tail|-1]);
      assert s[..|s|-1] == front + [c] + tail[..|tail|-1];
    }
  }

  lemma {:induction false} AbsentAfterLast(s: string, c: char)
    requires c !in s
    ensures AfterLast(s, c) == 0
  {
    if s != [] { AbsentAfterLast(s[..|s|-1], c); }
  }

  /** One well-formed member peels off the right end. */
  lemma DecodeAppended(front: string, t: string, i: string)
    requires ':' !in i && '|' !in t
    ensures Decode(front + "|" + t + ":" + i) == Decode(front) + [t + ":" + i]
  {
    hide Decode, AfterLast;
    var head := front + "|";
    DecodeSplit(head, t, i);
    AfterLastIs(front, '|', t);
    var s := head + t + ":" + i;
    assert s[..|front|] == front;
    assert s[|front|+1..] == t + ":" + i;
  }

  lemma DecodeAlone(t: string, i: string)
    requires ':' !in i && '|' !in t
    ensures Decode(t + ":" + i) == [t + ":" + i]
  {
    DecodeSplit("", t, i);
    AbsentAfterLast(t, '|');
    assert "" + t == t;
  }

  lemma SplitMember(m: string) returns (t: string, i: string)
    requires IsValid(m)
    ensures m == t + ":" + i && ':' !in i && '|' !in t
  {
    var k := IndexOf(m, ':');
    t, i := m[..k], m[k+1..];
    TokenHasNoColon(t);
  }

  /** The last colon of `head + t + ":" + i` is the one before the identifier. */
  lemma DecodeSplit(head: string, t: string, i: string)
    requires ':' !in i
    ensures var s := head + t + ":" + i;
      var start := AfterLast(head + t, '|');
      Decode(s) == if start == 0 then [s] else Decode(s[..start-1]) + [s[start..]]
  {
    var s := head + t + ":" + i;
    AfterLastIs(head + t, ':', i);
    assert s[..|head + t|] == head + t;
  }

  /** The joined members decode to exactly the members, although ids may hold the separator. */
  lemma {:induction false} DecodeJoin(members: seq<string>)
    requires forall m :: m in members ==> IsValid(m)
    ensures Decode(Join(members)) == members
  {
    hide IsValid, Decode;
    if members == [] {
      DecodeEmpty();
    } else {
      var front, last := members[..|members|-1], members[|members|-1];
      var t, i := SplitMember(last);
      if front == [] {
        DecodeAlone(t, i);
      } else {
        DecodeJoin(front);
        DecodeAppended(Join(front), t, i);
        assert Join(front) + "|" + t + ":" + i == Join(front) + "|" + last;
      }
      assert members == front + [last];
    }
  }

  lemma DecodeEmpty()
    ensures Decode("") == []
  {
  }

  lemma {:induction false} JoinWithPrefix(prefix: seq<string>, members: seq<string>)
    requires prefix != [] && members != []
    ensures Join(prefix + members) == Join(prefix) + "|" + Join(members)
  {
    var parts := prefix + members;
    assert parts[..|parts|-1] == prefix + members[..|members|-1];
    if |members| == 1 {
      assert parts[..|parts|-1] == prefix;
    } else {
      JoinWithPrefix(prefix, members[..|members|-1]);
    }
  }

  /** For one domain and snapshot, different member lists have different pre-images. */
  lemma PreImageInjective(domain: string, snapshotId: string, a: seq<string>, b: seq<string>)
    requires forall m :: m in a ==> IsValid(m)
    requires forall m :: m in b ==> IsValid(m)
    requires PreImage(domain, snapshotId, a) == PreImage(domain, snapshotId, b)
    ensures a == b
  {
    var head := Join([domain, snapshotId]);
    assert [domain, snapshotId] + [] == [domain, snapshotId];
    if a != [] { JoinWithPrefix([domain, snapshotId], a); }
    if b != [] { JoinWithPrefix([domain, snapshotId], b); }
    if a != [] && b != [] {
      var p := PreImage(domain, snapshotId, a);
      assert p[|head|+1..] == Join(a) == Join(b);
      DecodeJoin(a);
      DecodeJoin(b);
    }
  }

  // ---- Across domains and snapshots ----

  /** What precedes the members. */
  function Head(domain: string, snapshotId: string): string {
    domain + "|" + snapshotId
  }

  lemma HeadJoins(domain: string, snapshotId: string, members: seq<string>)
    ensures PreImage(domain, snapshotId, members) ==
              Head(domain, snapshotId) + if members == [] then "" else "|" + Join(members)
    ensures members != [] ==> PreImage(domain, snapshotId, members) == Head(domain, snapshotId) + "|" + Join(members)
  {
    var two := [domain, snapshotId];
    assert two[..1] == [domain];
    assert Join(two) == Head(domain, snapshotId);
    if members == [] {
      assert two + [] == two;
    } else {
      JoinWithPrefix(two, members);
    }
  }

  /** A trail's member list: not empty, sorted, well-formed. */
  ghost predicate IsMemberList(members: seq<string>) {
    members != [] && StrictlySorted(members) && forall m :: m in members ==> IsValid(m)
  }

  /** When no domain and no snapshot id holds the separator, equal pre-images come from one trail. */
  lemma PreImageSeparates(d: string, s: string, a: seq<string>, e: string, t: string, b: seq<string>)
    requires '|' !in d && '|' !in s && '|' !in e && '|' !in t
    requires forall m :: m in a ==> IsValid(m)
    requires forall m :: m in b ==> IsValid(m)
    requires PreImage(d, s, a) == PreImage(e, t, b)
    ensures d == e && s == t && a == b
  {
    HeadJoins(d, s, a);
    HeadJoins(e, t, b);
    var x, y := TailOf(s, a), TailOf(t, b);
    assert PreImage(d, s, a) == d + ['|'] + x && PreImage(e, t, b) == e + ['|'] + y;
    HeadsAgree(d, x, e, y, '|');
    assert x == (d + ['|'] + x)[|d| + 1..] && y == (e + ['|'] + y)[|e| + 1..];
    TailsAgree(s, a, t, b);
    PreImageInjective(d, s, a, b);
  }

  function TailOf(snapshotId: string, members: seq<string>): string {
    snapshotId + if members == [] then "" else "|" + Join(members)
  }

  lemma TailsAgree(s: string, a: seq<string>, t: string, b: seq<string>)
    requires '|' !in s && '|' !in t && TailOf(s, a) == TailOf(t, b)
    ensures s == t
  {
    TailHasMark(s, a);
    TailHasMark(t, b);
    if a != [] {
      assert TailOf(s, a) == s + ['|'] + Join(a) && TailOf(t, b) == t + ['|'] + Join(b);
      HeadsAgree(s, Join(a), t, Join(b), '|');
    }
    assert s + "" == s && t + "" == t;
  }

  lemma TailHasMark(s: string, a: seq<string>)
    requires '|' !in s
    ensures '|' in TailOf(s, a) <==> a != []
  {
    if a != [] { assert TailOf(s, a)[|s|] == '|'; }
  }

  /** The longer head goes on with the shorter one's separator and a member list. */
  ghost predicate Extends(short: string, long: string) {
    && |short| < |long| && long[..|short| + 1] == short + "|"
    && var rest := long[|short| + 1..];
       IsMemberList(Decode(rest)) && Join(Decode(rest)) == rest
  }

  /** Some two trails, one under each head, hash the same string. */
  ghost predicate Clash(d: string, s: string, e: string, t: string) {
    exists a, b :: IsMemberList(a) && IsMemberList(b) && PreImage(d, s, a) == PreImage(e, t, b)
  }

  /** Valid members peel off any front. */
  lemma {:induction false} DecodePeels(front: string, members: seq<string>)
    requires members != [] && forall m :: m in members ==> IsValid(m)
    ensures Decode(front + "|" + Join(members)) == Decode(front) + members
  {
    hide IsValid, Decode;
    var prior, last := members[..|members| - 1], members[|members| - 1];
    assert members == prior + [last];
    var t, i := SplitMember(last);
    if prior == [] {
      DecodeAppended(front, t, i);
      assert front + "|" + Join(members) == front + "|" + t + ":" + i;
    } else {
      DecodePeels(front, prior);
      DecodeAppended(front + "|" + Join(prior), t, i);
      assert front + "|" + Join(members) == front + "|" + Join(prior) + "|" + t + ":" + i;
    }
  }

  lemma ShorterHeadExtends(h: string, a: seq<string>, k: string, b: seq<string>)
    requires IsMemberList(a) && IsMemberList(b) && |h| < |k|
    requires h + "|" + Join(a) == k + "|" + Join(b)
    ensures Extends(h, k)
  {
    hide IsValid, Decode, StrictlySorted;
    var whole := h + "|" + Join(a);
    var rest := k[|h| + 1..];
    assert k == whole[..|k|] && k[..|h| + 1] == whole[..|h| + 1] == h + "|";
    assert k == h + "|" + rest;
    assert Join(a) == whole[|h| + 1..] == rest + "|" + Join(b);
    DecodeJoin(a);
    DecodePeels(rest, b);
    var c := Decode(rest);
    assert a == c + b;
    assert [] + b == b;
    JoinWithPrefix(c, b);
    assert rest == Join(a)[..|rest|] == Join(c);
    PrefixIsMemberList(c, b);
  }

  lemma PrefixIsMemberList(c: seq<string>, b: seq<string>)
    requires c != [] && IsMemberList(c + b)
    ensures IsMemberList(c)
  {
    var a := c + b;
    forall i, j | 0 <= i < j < |c| ensures Below(c[i], c[j]) { assert Below(a[i], a[j]); }
    forall m | m in c ensures IsValid(m) { assert m in a; }
  }

  lemma {:induction false} BelowExtended(m: string)
    ensures Below(m, m + "0")
  {
    if m != "" {
      BelowExtended(m[1..]);
      assert (m + "0")[1..] == m[1..] + "0";
    }
  }

  /** A member list goes on with a further member. */
  lemma OneMoreMember(c: seq<string>) returns (x: string)
    requires IsMemberList(c)
    ensures IsMemberList([x]) && IsMemberList(c + [x])
  {
    var last := c[|c| - 1];
    x := last + "0";
    BelowExtended(last);
    forall i | 0 <= i < |c| ensures Below(c[i], x) {
      if i < |c| - 1 { BelowIsTransitive(c[i], last, x); }
    }
    ExtendedIsValid(last);
  }

  lemma ExtendedIsValid(m: string)
    requires IsValid(m)
    ensures IsValid(m + "0")
  {
    var k := IndexOf(m, ':');
    var t, i := m[..k], m[k + 1..] + "0";
    assert m + "0" == t + ":" + i;
    assert IsTypeToken(t) && IsIdentifier(i);
    ValidExactly(m + "0");
  }

  lemma ExtensionClashes(h: string, k: string) returns (a: seq<string>, b: seq<string>)
    requires Extends(h, k)
    ensures IsMemberList(a) && IsMemberList(b) && h + "|" + Join(a) == k + "|" + Join(b)
  {
    hide IsMemberList, Decode;
    var rest := k[|h| + 1..];
    var c := Decode(rest);
    var x := OneMoreMember(c);
    a, b := c + [x], [x];
    assert c != [] by { NotEmpty(c); }
    JoinWithPrefix(c, b);
    assert k == h + "|" + rest;
    assert h + "|" + Join(a) == h + "|" + rest + "|" + Join(b);
  }

  lemma NotEmpty(c: seq<string>)
    ensures IsMemberList(c) ==> c != []
  {
  }

  lemma SomeMember()
    ensures IsMemberList(["A:1"])
  {
    assert "A:1" == "A" + ":" + "1";
    ValidExactly("A:1");
  }

  /** Exactly when two (domain, snapshot) pairs share the hashed string of some trails: their heads are
      the same, or one head goes on as the other would with a separator and members. */
  lemma ClashExactly(d: string, s: string, e: string, t: string)
    ensures var h, k := Head(d, s), Head(e, t);
            Clash(d, s, e, t) <==> h == k || Extends(h, k) || Extends(k, h)
  {
    hide IsMemberList, Extends, Decode, PreImage;
    var h, k := Head(d, s), Head(e, t);
    if Clash(d, s, e, t) {
      var a, b :| IsMemberList(a) && IsMemberList(b) && PreImage(d, s, a) == PreImage(e, t, b);
      NotEmpty(a);
      NotEmpty(b);
      HeadJoins(d, s, a);
      HeadJoins(e, t, b);
      assert h + "|" + Join(a) == k + "|" + Join(b);
      if |h| < |k| {
        ShorterHeadExtends(h, a, k, b);
      } else if |k| < |h| {
        ShorterHeadExtends(k, b, h, a);
      } else {
        assert h == (h + "|" + Join(a))[..|h|] && k == (k + "|" + Join(b))[..|h|];
      }
    }
    if h == k {
      SomeMember();
      HeadsClash(d, s, ["A:1"], e, t, ["A:1"]);
    }
    if Extends(h, k) {
      var a, b := ExtensionClashes(h, k);
      HeadsClash(d, s, a, e, t, b);
    }
    if Extends(k, h) {
      var b, a := ExtensionClashes(k, h);
      HeadsClash(d, s, a, e, t, b);
    }
  }

  lemma HeadsClash(d: string, s: string, a: seq<string>, e: string, t: string, b: seq<string>)
    requires IsMemberList(a) && IsMemberList(b) && Head(d, s) + "|" + Join(a) == Head(e, t) + "|" + Join(b)
    ensures Clash(d, s, e, t)
  {
    hide Head;
    HeadJoins(d, s, a);
    HeadJoins(e, t, b);
    assert PreImage(d, s, a) == PreImage(e, t, b);
  }

  /** Clashes that a separator in an id allows: in the domain, or in the snapshot id. */
  lemma PreImageClashesAcrossDomains()
    ensures Clash("core|ip", "s1", "core", "ip|s1")
    ensures Clash("core", "s1", "core", "s1|Node:a")
  {
    hide Clash, Extends;
    ClashExactly("core|ip", "s1", "core", "ip|s1");
    assert Head("core|ip", "s1") == Head("core", "ip|s1");
    ClashExactly("core", "s1", "core", "s1|Node:a");
    assert Head("core", "s1|Node:a") == Head("core", "s1") + "|" + "Node:a";
    MemberExtends(Head("core", "s1"), "Node", "a");
    assert "Node" + ":" + "a" == "Node:a";
  }

  lemma MemberExtends(h: string, t: string, i: string)
    requires IsTypeToken(t) && IsIdentifier(i)
    ensures Extends(h, h + "|" + (t + ":" + i))
  {
    hide Decode;
    var k, m := h + "|" + (t + ":" + i), t + ":" + i;
    assert k[..|h| + 1] == h + "|" && k[|h| + 1..] == m;
    TokenHasNoColon(t);
    DecodeAlone(t, i);
    ValidExactly(m);
  }
}
