/**
 * The pure parts of the database connection diagnostic (backend/test_connection.py):
 * the host and database name shown from the connection URL, and the
 * case-insensitive lookup of the main tables among the tables the schema lists.
 */
module ConnectionCheck {
  import opened PyStr

  const NotAvailable: string := "N/A"

  /** `url.split('@')[1].split('/')[0] if '@' in url else 'N/A'` */
  function Host(url: string): string
  {
    if '@' in url then
      SplitMany(url, '@');
      Split(Split(url, '@')[1], '/')[0]
    else NotAvailable
  }

  /** `url.split('/')[-1].split('?')[0] if '/' in url else 'N/A'` */
  function DbName(url: string): string
  {
    if '/' in url then
      var parts := Split(url, '/');
      Split(parts[|parts| - 1], '?')[0]
    else NotAvailable
  }

  /**
   * Past the first '@', the host runs up to the next '@' or '/' or the end of the URL,
   * so it holds neither character and is a slice of the URL.
   */
  lemma HostAfterFirstAt(url: string, k: nat)
    requires k < |url| && url[k] == '@' && '@' !in url[..k]
    ensures var h := Host(url);
      k + 1 + |h| <= |url| && url[k + 1..k + 1 + |h|] == h
      && '@' !in h && '/' !in h
      && (k + 1 + |h| == |url| || url[k + 1 + |h|] == '@' || url[k + 1 + |h|] == '/')
  {
    assert url[k] in url;
    var rest := url[k + 1..];
    SplitAtFirst(url, '@', k);
    var afterAt := Split(rest, '@')[0];
    FirstPiece(rest, '@');
    FirstPiece(afterAt, '/');
    var h := Split(afterAt, '/')[0];
    assert h == Host(url);
    PrefixOfPrefix(url, k + 1, rest, afterAt, h);
  }

  /** A prefix of a prefix of `url[from..]`, placed back in `url`. */
  lemma PrefixOfPrefix(url: string, from: nat, rest: string, outer: string, inner: string)
    requires from <= |url| && rest == url[from..]
    requires |outer| <= |rest| && rest[..|outer|] == outer
    requires |inner| <= |outer| && outer[..|inner|] == inner
    requires '@' !in outer && (|outer| == |rest| || rest[|outer|] == '@')
    requires |inner| == |outer| || outer[|inner|] == '/'
    ensures from + |inner| <= |url| && url[from..from + |inner|] == inner
    ensures '@' !in inner
    ensures from + |inner| == |url| || url[from + |inner|] == '@' || url[from + |inner|] == '/'
  {
    assert forall c :: c in inner ==> c in outer;
    if |inner| < |outer| {
      assert url[from + |inner|] == outer[|inner|];
    } else if |outer| < |rest| {
      assert url[from + |inner|] == rest[|outer|];
    }
  }

  /** Without an '@' the host is "N/A". */
  lemma HostWithoutAt(url: string)
    requires '@' !in url
    ensures Host(url) == NotAvailable
  {
  }

  /** Whenever the URL has an '@', the host is a '@'- and '/'-free slice of it. */
  lemma HostIsSlice(url: string)
    requires '@' in url
    ensures exists a, b :: 0 <= a <= b <= |url| && url[a..b] == Host(url)
    ensures '@' !in Host(url) && '/' !in Host(url)
  {
    var k := FirstIndex(url, '@');
    HostAfterFirstAt(url, k);
    var h := Host(url);
    assert url[k + 1..k + 1 + |h|] == h;
  }

  /** The index of the first `c` in `s`. */
  function FirstIndex(s: string, c: char): (k: nat)
    requires c in s
    ensures k < |s| && s[k] == c && c !in s[..k]
  {
    if s[0] == c then 0
    else
      assert c in s[1..] by { assert s == [s[0]] + s[1..]; }
      var k := 1 + FirstIndex(s[1..], c);
      assert s[..k] == [s[0]] + s[1..][..k - 1];
      k
  }

  /**
   * After the last '/', the database name runs up to the first '?' or the end,
   * so it holds neither '/' nor '?' and is a prefix of the text after the last '/'.
   */
  lemma DbNameAfterLastSlash(url: string, a: nat)
    requires 0 < a <= |url| && url[a - 1] == '/' && '/' !in url[a..]
    ensures var d := DbName(url);
      a + |d| <= |url| && url[a..a + |d|] == d && '?' !in d && '/' !in d
      && (a + |d| == |url| || url[a + |d|] == '?')
  {
    assert url[a - 1] in url;
    LastPieceAt(url, a);
    var last := url[a..];
    var d := Split(last, '?')[0];
    assert d == DbName(url);
    FirstPiece(last, '?');
    assert forall c :: c in d ==> c in last;
    if |d| < |last| {
      assert url[a + |d|] == last[|d|];
    }
  }

  /** When `a` follows the last '/', the last piece of the split on '/' is `url[a..]`. */
  lemma LastPieceAt(url: string, a: nat)
    requires 0 < a <= |url| && url[a - 1] == '/' && '/' !in url[a..]
    ensures var parts := Split(url, '/'); parts[|parts| - 1] == url[a..]
  {
    var parts := Split(url, '/');
    SplitLastIsSuffix(url, '/');
    assert url[a - 1] in url;
    var a' :| 0 <= a' <= |url| && parts[|parts| - 1] == url[a'..] && (a' == 0 || url[a' - 1] == '/')
      && (a' == 0 <==> '/' !in url);
    SplitPartsFree(url, '/');
  }

  /** Without a '/' the database name is "N/A". */
  lemma DbNameWithoutSlash(url: string)
    requires '/' !in url
    ensures DbName(url) == NotAvailable
  {
  }

  /** The host of a typical connection URL. */
  lemma HostExample(url: string)
    requires url == "pg://u@h:1/db?s"
    ensures Host(url) == "h:1"
  {
    assert url[..6] == "pg://u" && url[6] == '@';
    HostAfterFirstAt(url, 6);
    var h := Host(url);
    assert url[7..10] == "h:1" && url[10] == '/';
    assert |h| == 3;
  }

  /** The database name of the same URL. */
  lemma DbNameExample(url: string)
    requires url == "pg://u@h:1/db?s"
    ensures DbName(url) == "db"
  {
    assert url[10] == '/' && url[11..] == "db?s";
    DbNameAfterLastSlash(url, 11);
    assert url[11..13] == "db" && url[13] == '?';
  }

  /** The tables whose row counts are shown, in this order. */
  const MainTables: seq<string> :=
    ["usuarios", "vehiculos", "departamentos", "propietarios", "registro_accesos", "pagos", "tarifas", "inquilinos"]

  /** The listed table `t` is the requested `name` up to case. */
  predicate SameName(t: string, name: string)
  {
    LowerStr(t) == LowerStr(name)
  }

  /** `any(t.lower() == name.lower() for t in tables)` */
  predicate TableExists(tables: seq<string>, name: string)
  {
    exists i :: 0 <= i < |tables| && SameName(tables[i], name)
  }

  /** `next((t for t in tables if t.lower() == name.lower()), name)` */
  function ResolveTable(tables: seq<string>, name: string): string
  {
    if tables == [] then name
    else if SameName(tables[0], name) then tables[0]
    else ResolveTable(tables[1..], name)
  }

  /** The resolved name is the first listed match, or the requested name when nothing matches. */
  lemma {:induction false} ResolveIsFirstMatch(tables: seq<string>, name: string)
    ensures TableExists(tables, name) ==>
      exists i :: 0 <= i < |tables| && ResolveTable(tables, name) == tables[i] && SameName(tables[i], name)
        && forall j :: 0 <= j < i ==> !SameName(tables[j], name)
    ensures !TableExists(tables, name) ==> ResolveTable(tables, name) == name
  {
    if tables != [] {
      ResolveIsFirstMatch(tables[1..], name);
      if SameName(tables[0], name) {
        assert ResolveTable(tables, name) == tables[0];
      } else {
        if TableExists(tables, name) {
          var i :| 0 <= i < |tables| && SameName(tables[i], name);
          assert TableExists(tables[1..], name) by { assert tables[1..][i - 1] == tables[i]; }
          var i' :| 0 <= i' < |tables[1..]| && ResolveTable(tables[1..], name) == tables[1..][i'] && SameName(tables[1..][i'], name)
            && forall j :: 0 <= j < i' ==> !SameName(tables[1..][j], name);
          assert forall j :: 0 <= j < i' + 1 ==> !SameName(tables[j], name) by {
            forall j | 0 <= j < i' + 1 ensures !SameName(tables[j], name) {
              if j > 0 { assert tables[j] == tables[1..][j - 1]; }
            }
          }
        }
      }
    }
  }

  /** The match ignores case on both sides. */
  lemma TableExistsIgnoresCase(tables: seq<string>, name: string)
    ensures TableExists(tables, name) == TableExists(tables, UpperStr(name))
    ensures TableExists(tables, name) == TableExists(tables, LowerStr(name))
  {
    LowerUpperStr(name);
    LowerLowerStr(name);
  }

  /** The main tables that exist, under the names the schema lists them by (the counting itself is I/O). */
  function CountedTables(tables: seq<string>, wanted: seq<string>): (counted: seq<string>)
  {
    if wanted == [] then []
    else
      var rest := CountedTables(tables, wanted[1..]);
      if TableExists(tables, wanted[0]) then [ResolveTable(tables, wanted[0])] + rest else rest
  }

  /** Every counted name is one the schema lists, and no more names are counted than were
      wanted; every wanted table that exists is counted, under the name it resolves to. */
  lemma {:induction false} CountedTablesListed(tables: seq<string>, wanted: seq<string>)
    ensures |CountedTables(tables, wanted)| <= |wanted|
    ensures forall t :: t in CountedTables(tables, wanted) ==> t in tables
    ensures forall w :: w in wanted && TableExists(tables, w) ==> ResolveTable(tables, w) in CountedTables(tables, wanted)
    ensures forall t :: t in CountedTables(tables, wanted) ==>
      exists w :: w in wanted && TableExists(tables, w) && t == ResolveTable(tables, w)
  {
    if wanted != [] {
      CountedTablesListed(tables, wanted[1..]);
      if TableExists(tables, wanted[0]) {
        ResolveIsFirstMatch(tables, wanted[0]);
      }
    }
  }
}
