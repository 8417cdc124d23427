/** Magnet-link text handling shared by the torrent clients: the rename
    substitution `(?<=&dn=).*?(?=&)` (case-insensitive) and the info-hash
    extraction `link.split('urn:btih:')[1].split('&')[0]` (BEP 9 magnet URIs). */
module Magnet {
  import opened Common
  import opened Strings

  const BtihMarker: string := "urn:btih:"
  const MagnetPrefix: string := "magnet:?xt="

  /** Where a lazily matched `&dn=` value ends: the first '&' at or after
      `from`, provided no newline (which `.` does not match) comes before
      it. */
  function ValueEnd(t: string, from: nat): (r: Option<nat>)
    ensures r.Some? ==> from <= r.value < |t| && t[r.value] == '&'
    ensures r.Some? ==> forall j :: 0 <= j < r.value ==> t[j] != '\n'
    ensures r.Some? ==> forall j :: from <= j < r.value ==> t[j] != '&'
    decreases |t|
  {
    if |t| == 0 then None
    else if from == 0 && t[0] == '&' then Some(0)
    else if t[0] == '\n' then None
    else match ValueEnd(t[1..], if from == 0 then 0 else from - 1)
      case Some(k) => Some(k + 1)
      case None => None
  }

  lemma {:induction false} ValueEndAt(v: string, rest: string)
    requires '&' !in v && '\n' !in v
    ensures ValueEnd(v + "&" + rest, 0) == Some(|v|)
    decreases |v|
  {
    var t := v + "&" + rest;
    if |v| > 0 {
      assert t[1..] == v[1..] + "&" + rest;
      ValueEndAt(v[1..], rest);
    }
  }

  /** `filename_magnet_link.sub(name, link)`, scanning the link from the
      front: a match can start only right after an `&dn=` (any case). The
      name is inserted as given. */
  function SubDn(s: string, name: string): string {
    Scan(s, name)
  }

  /** The substitution over text where no match starts at the front. */
  function Scan(s: string, name: string): string
    decreases |s|, 0
  {
    if |s| < 4 then s
    else if Lower(s[..4]) == "&dn=" then s[..4] + AtValue(s[4..], name, false)
    else [s[0]] + Scan(s[1..], name)
  }

  /** The substitution from just after an `&dn=`. The lazy `.*?` matches up
      to the next '&'. An empty match there must be followed by a non-empty
      one at the same place (`advance`), which reaches the '&' after it. A
      match of exactly `&dn=` leaves the next place right after an `&dn=`
      again. */
  function AtValue(t: string, name: string, advance: bool): string
    decreases |t|, if advance then 1 else 2
  {
    if !advance && |t| > 0 && t[0] == '&' then name + AtValue(t, name, true)
    else match ValueEnd(t, if advance then 1 else 0)
      case Some(k) =>
        if Lower(t[..k]) == "&dn=" then name + AtValue(t[k..], name, false)
        else name + Scan(t[k..], name)
      case None => Scan(t, name)
  }

  lemma LowerAmpersand(s: string)
    requires |s| >= 4 && s[0] != '&'
    ensures Lower(s[..4]) != "&dn="
  {
    assert Lower(s[..4])[0] == LowerChar(s[0]) != '&';
  }

  /** Text without '&' passes through the substitution unchanged. */
  lemma {:induction false} SubDnKeeps(a: string, b: string, name: string)
    requires '&' !in a
    ensures SubDn(a + b, name) == a + SubDn(b, name)
    decreases |a|
  {
    if |a| > 0 {
      var s := a + b;
      if |s| >= 4 {
        LowerAmpersand(s);
        assert Scan(s, name) == [s[0]] + Scan(s[1..], name);
        assert s[1..] == a[1..] + b;
        SubDnKeeps(a[1..], b, name);
        assert [a[0]] + (a[1..] + SubDn(b, name)) == a + SubDn(b, name);
      } else {
        assert |b| < 4;
        assert Scan(b, name) == b;
        assert Scan(s, name) == s;
      }
    } else {
      assert a + b == b;
    }
  }

  lemma SubDnFirst(t: string, name: string)
    requires |t| > 0
    ensures |SubDn(t, name)| > 0 && SubDn(t, name)[0] == t[0]
  {
  }

  lemma LowerDn()
    ensures Lower("&dn=") == "&dn="
  {
    var l := Lower("&dn=");
    assert l[0] == '&' && l[1] == 'd' && l[2] == 'n' && l[3] == '=';
  }

  /** A non-empty `&dn=` value followed by '&' is replaced by the name, and
      the scan goes on from that '&'. */
  lemma SubDnAtValue(t: string, v: string, b: string, name: string)
    requires t == "&dn=" + v + "&" + b
    requires |v| > 0 && '&' !in v && '\n' !in v && '\\' !in name
    ensures SubDn(t, name) == "&dn=" + name + SubDn("&" + b, name)
  {
    assert t[..4] == "&dn=";
    LowerDn();
    var u := t[4..];
    assert Scan(t, name) == "&dn=" + AtValue(u, name, false);
    assert u == v + "&" + b;
    ValueEndAt(v, b);
    assert u[..|v|] == v;
    assert Lower(v) != "&dn=" by {
      if |v| == 4 {
        assert Lower(v)[0] == LowerChar(v[0]) != '&';
      }
    }
    assert u[|v|..] == "&" + b;
    assert u[0] == v[0] != '&';
    assert AtValue(u, name, false) == name + Scan("&" + b, name);
  }

  /** An empty `&dn=` value is replaced by the name, and the non-empty match
      that must follow it takes everything up to the next '&' as well: the
      link gets the name twice and loses that parameter. */
  lemma SubDnEmptyValue(w: string, b: string, name: string)
    requires '&' !in w && '\n' !in w && |w| != 3 && '\\' !in name
    ensures SubDn("&dn=&" + w + "&" + b, name) == "&dn=" + name + name + SubDn("&" + b, name)
  {
    var t := "&dn=&" + w + "&" + b;
    LowerDn();
    assert t[..4] == "&dn=";
    var u := t[4..];
    assert Scan(t, name) == "&dn=" + AtValue(u, name, false);
    assert u == "&" + w + "&" + b;
    assert AtValue(u, name, false) == name + AtValue(u, name, true);
    ValueEndAt(w, b);
    assert ValueEnd(u, 1) == Some(|w| + 1) by {
      assert u[1..] == w + "&" + b;
    }
    assert u[|w| + 1..] == "&" + b;
    assert Lower(u[..|w| + 1]) != "&dn=" by {
      assert |u[..|w| + 1]| == |w| + 1;
    }
    assert AtValue(u, name, true) == name + Scan("&" + b, name);
  }

  /** The value after `&dn=` up to the next '&' becomes the new name. */
  lemma RenameReplacesValue(a: string, v: string, b: string, name: string)
    requires '&' !in a && |v| > 0 && '&' !in v && '\n' !in v && '\\' !in name
    ensures SubDn(a + "&dn=" + v + "&" + b, name) == a + "&dn=" + name + SubDn("&" + b, name)
  {
    var t := "&dn=" + v + "&" + b;
    var u := SubDn("&" + b, name);
    assert a + "&dn=" + v + "&" + b == a + t;
    assert SubDn(a + t, name) == a + SubDn(t, name) by {
      SubDnKeeps(a, t, name);
    }
    assert SubDn(t, name) == "&dn=" + name + u by {
      SubDnAtValue(t, v, b, name);
    }
    assert a + ("&dn=" + name + u) == a + "&dn=" + name + u;
  }

  /** `link.split('urn:btih:')[1].split('&')[0]`; `None` is the `IndexError`
      of a link without the marker. */
  function BtihOf(link: string): (r: Option<string>)
    ensures r.None? <==> !Contains(link, BtihMarker)
    ensures r.Some? ==> '&' !in r.value && !Contains(r.value, BtihMarker)
  {
    match SplitFirst(link, BtihMarker).1
    case None => None
    case Some(after) =>
      var segment := BeforeFirst(after, BtihMarker);
      var h := BeforeFirst(segment, "&");
      HashFieldFacts(segment);
      Some(h)
  }

  lemma HashFieldFacts(segment: string)
    requires !Contains(segment, BtihMarker)
    ensures '&' !in BeforeFirst(segment, "&") && !Contains(BeforeFirst(segment, "&"), BtihMarker)
  {
    var (h, rest) := SplitFirst(segment, "&");
    NoCharNoOccurrence(h, '&');
    if rest.Some? {
      assert segment == h + ("&" + rest.value);
      PrefixAvoids(h, "&" + rest.value, BtihMarker);
    }
  }

  lemma NoCharNoOccurrence(s: string, c: char)
    requires !Contains(s, [c])
    ensures c !in s
  {
    forall k | 0 <= k < |s|
      ensures s[k] != c
    {
      assert !OccursAt(s, [c], k);
      assert s[k..k + 1] == [s[k]];
    }
  }

  lemma PrefixAvoids(x: string, y: string, pat: string)
    requires !Contains(x + y, pat)
    ensures !Contains(x, pat)
  {
    forall j | 0 <= j <= |x| - |pat|
      ensures !OccursAt(x, pat, j)
    {
      assert (x + y)[j..j + |pat|] == x[j..j + |pat|];
      assert !OccursAt(x + y, pat, j);
    }
  }

  /** A hash as it appears in a magnet URI: no '&', no ':'. */
  predicate PlainHash(h: string) {
    '&' !in h && ':' !in h
  }

  /** In a magnet URI the first marker is the one after `magnet:?xt=`. */
  lemma MarkerAfterPrefix(x: string)
    ensures SplitFirst(MagnetPrefix + BtihMarker + x, BtihMarker).1 == Some(x)
  {
    var tail := BtihMarker + x;
    var s := MagnetPrefix + tail;
    assert MagnetPrefix + BtihMarker + x == s;
    assert 'u' !in MagnetPrefix;
    forall j | 0 <= j < |MagnetPrefix|
      ensures !OccursAt(s, BtihMarker, j)
    {
      assert s[j] == MagnetPrefix[j];
      if j + |BtihMarker| <= |s| {
        assert s[j..j + |BtihMarker|][0] == s[j];
      }
    }
    SplitFirstAfter(MagnetPrefix, tail, BtihMarker);
    assert OccursAt(tail, BtihMarker, 0);
    assert IndexFrom(tail, BtihMarker, 0) == Some(0);
    assert tail[|BtihMarker|..] == x;
  }

  /** No marker starts inside `h + "&"` when `h` is a plain hash. */
  lemma NoMarkerBeforeAmp(h: string, r: string)
    requires PlainHash(h)
    ensures forall j :: 0 <= j < |h + "&"| ==> !OccursAt((h + "&") + r, BtihMarker, j)
  {
    var t := (h + "&") + r;
    assert '&' !in BtihMarker;
    forall j | 0 <= j < |h + "&"|
      ensures !OccursAt(t, BtihMarker, j)
    {
      if j + |BtihMarker| <= |t| {
        if j + |BtihMarker| <= |h| {
          assert t[j..j + |BtihMarker|][3] == h[j + 3];
        } else {
          assert t[j..j + |BtihMarker|][|h| - j] == t[|h|] == '&';
        }
      }
    }
  }

  /** The text before the first '&' of `h + "&" + r` is `h`. */
  lemma BeforeAmp(h: string, r: string)
    requires '&' !in h
    ensures BeforeFirst(h + ("&" + r), "&") == h
  {
    forall j | 0 <= j < |h|
      ensures !OccursAt(h + ("&" + r), "&", j)
    {
      assert (h + ("&" + r))[j..j + 1][0] == h[j];
    }
    SplitFirstAfter(h, "&" + r, "&");
    assert OccursAt("&" + r, "&", 0);
    assert IndexFrom("&" + r, "&", 0) == Some(0);
  }

  lemma HashSegment(h: string, rest: string)
    requires PlainHash(h)
    requires rest == "" || rest[0] == '&'
    ensures BeforeFirst(BeforeFirst(h + rest, BtihMarker), "&") == h
  {
    if rest == "" {
      assert h + rest == h;
      ForeignCharAvoids(h, BtihMarker, ':');
      ForeignCharAvoids(h, "&", '&');
    } else {
      assert rest == "&" + rest[1..];
      HashBeforeAmp(h, rest[1..]);
    }
  }

  /** A hash followed by '&' and more parameters ends at the '&'. */
  lemma HashBeforeAmp(h: string, r: string)
    requires PlainHash(h)
    ensures BeforeFirst(BeforeFirst(h + ("&" + r), BtihMarker), "&") == h
  {
    assert h + ("&" + r) == (h + "&") + r;
    NoMarkerBeforeAmp(h, r);
    SplitFirstAfter(h + "&", r, BtihMarker);
    var rest2 := SplitFirst(r, BtihMarker).0;
    assert BeforeFirst(h + ("&" + r), BtihMarker) == h + ("&" + rest2);
    BeforeAmp(h, rest2);
  }

  /** The info hash of `magnet:?xt=urn:btih:<h>` followed by nothing or by
      further '&' parameters is `h`. */
  lemma BtihOfMagnet(h: string, rest: string)
    requires PlainHash(h)
    requires rest == "" || rest[0] == '&'
    ensures BtihOf(MagnetPrefix + BtihMarker + h + rest) == Some(h)
  {
    assert MagnetPrefix + BtihMarker + h + rest == MagnetPrefix + BtihMarker + (h + rest);
    MarkerAfterPrefix(h + rest);
    HashSegment(h, rest);
  }

  /** Renaming a magnet link never changes the info hash taken from it. */
  lemma RenameKeepsBtih(h: string, rest: string, name: string)
    requires PlainHash(h)
    requires rest == "" || rest[0] == '&'
    ensures BtihOf(SubDn(MagnetPrefix + BtihMarker + h + rest, name)) == Some(h)
  {
    var head := MagnetPrefix + BtihMarker + h;
    assert '&' !in MagnetPrefix + BtihMarker;
    assert '&' !in head;
    assert MagnetPrefix + BtihMarker + h + rest == head + rest;
    SubDnKeeps(head, rest, name);
    var rest' := SubDn(rest, name);
    if rest != "" {
      SubDnFirst(rest, name);
    }
    assert head + rest' == MagnetPrefix + BtihMarker + h + rest';
    BtihOfMagnet(h, rest');
  }
}
