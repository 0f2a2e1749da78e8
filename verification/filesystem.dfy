/**
 The PS5 filesystem paths: `SDL_GetBasePath`, derived from `argv[0]` and
 the working directory, and `SDL_GetPrefPath`, assembled from the
 foreground user's home directory, the organisation and the application
 name, together with the directories it creates on the way.
 C strings are `string`s without their terminating NUL.
 */
module Filesystem {
  import opened Common

  /** A C string holds no NUL before its end. */
  predicate NoNul(s: string)
  {
    forall j :: 0 <= j < |s| ==> s[j] != '\0'
  }

  predicate EndsWithSlash(s: string)
  {
    |s| > 0 && s[|s| - 1] == '/'
  }

  // ---------------------------------------------------------------------
  // Base path
  // ---------------------------------------------------------------------

  const DEFAULT_BASE_PATH: string := "/data/"

  /** The cut of the `for (i = strlen(dir); i > 0; i--)` loop, from `i`
      down: `dir` up to and including its last '/' before index `i`, or
      `dir` unchanged when there is none. */
  function CutAfterLastSlash(dir: string, i: nat): (r: string)
    requires i <= |dir|
    ensures (forall j :: 0 <= j < i ==> dir[j] != '/') ==> r == dir
    ensures (exists j :: 0 <= j < i && dir[j] == '/') ==>
      && 0 < |r| <= i && r == dir[..|r|] && EndsWithSlash(r)
      && forall j :: |r| <= j < i ==> dir[j] != '/'
  {
    if i == 0 then dir
    else if dir[i - 1] == '/' then dir[..i]
    else CutAfterLastSlash(dir, i - 1)
  }

  /** The directory string `SDL_GetBasePath` builds before cutting it: an
      absolute `argv[0]` as it is, a relative one behind the working
      directory and a '/'. A failed `getcwd` counts as an empty one. */
  function RawDir(argv0: string, cwd: Option<string>): string
  {
    if |argv0| > 0 && argv0[0] == '/' then argv0
    else (if cwd.Some? then cwd.value else "") + "/" + argv0
  }

  /** `SDL_GetBasePath`. `argv0` is `None` when `getargv()` or its first
      entry is NULL; `cwd` is `None` when `getcwd` fails. */
  function BasePath(argv0: Option<string>, cwd: Option<string>): (r: string)
    ensures EndsWithSlash(r)
    ensures argv0.None? || '/' !in argv0.value ==> r == DEFAULT_BASE_PATH
    ensures argv0.Some? && '/' in argv0.value ==>
      var dir := RawDir(argv0.value, cwd);
      && |r| <= |dir| && r == dir[..|r|]
      && forall j :: |r| <= j < |dir| ==> dir[j] != '/'
  {
    if argv0.None? || '/' !in argv0.value then DEFAULT_BASE_PATH
    else
      var dir := RawDir(argv0.value, cwd);
      assert '/' in dir by {
        var k :| 0 <= k < |argv0.value| && argv0.value[k] == '/';
        if !(argv0.value[0] == '/') {
          var c := if cwd.Some? then cwd.value else "";
          assert dir[|c|] == '/';
        } else {
          assert dir[0] == '/';
        }
      }
      CutAfterLastSlash(dir, |dir|)
  }

  /** An absolute program path gives its own directory part. */
  lemma BasePathOfAbsolute(argv0: string, cwd: Option<string>)
    requires |argv0| > 0 && argv0[0] == '/'
    ensures var r := BasePath(Some(argv0), cwd);
      r == argv0[..|r|] && forall j :: |r| <= j < |argv0| ==> argv0[j] != '/'
  {
    assert argv0[0] in argv0;
  }

  /** A relative program path gives the directory part of the working
      directory joined with it; the result starts with the working
      directory. */
  lemma BasePathOfRelative(argv0: string, cwd: string)
    requires '/' in argv0 && argv0[0] != '/'
    ensures var r := BasePath(Some(argv0), Some(cwd));
      var dir := cwd + "/" + argv0;
      && r == dir[..|r|] && |cwd| < |r|
      && forall j :: |r| <= j < |dir| ==> dir[j] != '/'
  {
    var dir := cwd + "/" + argv0;
    var r := BasePath(Some(argv0), Some(cwd));
    var k :| 0 <= k < |argv0| && argv0[k] == '/';
    assert dir[|cwd| + 1 + k] == '/';
  }

  // ---------------------------------------------------------------------
  // Hexadecimal user ids
  // ---------------------------------------------------------------------

  function HexDigit(d: nat): (c: char)
    requires d < 16
  {
    if d < 10 then (48 + d) as char else (97 + d - 10) as char
  }

  /** The value of a lower-case hexadecimal digit. */
  function DigitValue(c: char): nat
  {
    if '0' <= c <= '9' then c as nat - 48
    else if 'a' <= c <= 'f' then c as nat - 97 + 10
    else 0
  }

  predicate IsHexDigit(c: char)
  {
    '0' <= c <= '9' || 'a' <= c <= 'f'
  }

  /** `%x`: the digits of `n`, most significant first, no leading zero. */
  function Hex(n: nat): (s: string)
    ensures |s| > 0 && forall j :: 0 <= j < |s| ==> IsHexDigit(s[j])
    ensures s[0] == '0' <==> n == 0
    ensures n == 0 ==> s == "0"
  {
    if n < 16 then [HexDigit(n)] else Hex(n / 16) + [HexDigit(n % 16)]
  }

  /** `%04x`: `%x` padded with leading zeros to four digits, so a leading
      zero appears only in exactly four digits. */
  function Hex04(n: nat): (s: string)
    ensures |s| >= 4 && forall j :: 0 <= j < |s| ==> IsHexDigit(s[j])
    ensures |s| == 4 || s[0] != '0'
  {
    var h := Hex(n);
    if |h| >= 4 then h else seq(4 - |h|, j => '0') + h
  }

  /** Reading a string of hexadecimal digits back as a number. */
  function HexValue(s: string): nat
  {
    if s == [] then 0 else HexValue(s[..|s| - 1]) * 16 + DigitValue(s[|s| - 1])
  }

  lemma {:induction false} HexRoundTrip(n: nat)
    ensures HexValue(Hex(n)) == n
  {
    if n >= 16 {
      HexRoundTrip(n / 16);
      var s := Hex(n);
      assert s[..|s| - 1] == Hex(n / 16);
    }
  }

  lemma {:induction false} ZerosHaveNoValue(k: nat)
    ensures HexValue(seq(k, j => '0')) == 0
  {
    if k > 0 {
      ZerosHaveNoValue(k - 1);
      assert seq(k, j => '0')[..k - 1] == seq(k - 1, j => '0');
    }
  }

  lemma {:induction false} LeadingZerosKeepValue(k: nat, s: string)
    ensures HexValue(seq(k, j => '0') + s) == HexValue(s)
    decreases |s|
  {
    var z := seq(k, j => '0');
    if s == [] {
      assert z + s == z;
      ZerosHaveNoValue(k);
    } else {
      var init := s[..|s| - 1];
      LeadingZerosKeepValue(k, init);
      assert (z + s)[..|z + s| - 1] == z + init;
    }
  }

  /** The padded user id reads back as the user id, and its digits carry
      no zero beyond the four-digit padding. */
  lemma Hex04RoundTrip(n: nat)
    ensures HexValue(Hex04(n)) == n
    ensures |Hex04(n)| == 4 || Hex04(n)[0] != '0'
  {
    HexRoundTrip(n);
    if |Hex(n)| < 4 {
      LeadingZerosKeepValue(4 - |Hex(n)|, Hex(n));
    }
  }

  // ---------------------------------------------------------------------
  // Preference path
  // ---------------------------------------------------------------------

  /** The directory prefix: the foreground user's home, or "/data/" when
      `sceUserServiceGetForegroundUser` fails (`None`). */
  function UserPrefix(userId: Option<u32>): (p: string)
    ensures userId.None? ==> p == "/data/"
    ensures userId.Some? ==>
      && |p| >= 16
      && p[..11] == "/user/home/" && p[|p| - 1] == '/'
      && HexValue(p[11..|p| - 1]) == userId.value as nat
      && forall j :: 11 <= j < |p| - 1 ==> IsHexDigit(p[j])
    ensures userId.Some? ==> |p| == 16 || p[11] != '0'
    ensures NoNul(p)
  {
    if userId.None? then "/data/"
    else
      HomePrefixShape(userId.value as nat);
      "/user/home/" + Hex04(userId.value as nat) + "/"
  }

  /** The home prefix of user `n` frames its padded id between
      "/user/home/" and a final '/'. */
  lemma HomePrefixShape(n: nat)
    ensures var p := "/user/home/" + Hex04(n) + "/";
      && |p| >= 16
      && p[..11] == "/user/home/" && p[|p| - 1] == '/'
      && HexValue(p[11..|p| - 1]) == n
      && (forall j :: 11 <= j < |p| - 1 ==> IsHexDigit(p[j]))
      && (|p| == 16 || p[11] != '0')
      && NoNul(p)
  {
    var h := Hex04(n);
    var p := "/user/home/" + h + "/";
    assert p[11..|p| - 1] == h;
    Hex04RoundTrip(n);
    forall j | 11 <= j < |p| - 1
      ensures IsHexDigit(p[j])
    {
      assert p[j] == h[j - 11];
    }
  }

  /** `SDL_snprintf(buf, len, ...)`: at most `len - 1` characters fit. */
  function Snprintf(s: string, len: nat): (r: string)
    ensures len > 0 ==> |r| < len
    ensures |r| <= |s| && r == s[..|r|]
    ensures |s| < len ==> r == s
    ensures len > 0 && |s| >= len ==> |r| == len - 1
  {
    if |s| < len then s else if len == 0 then [] else s[..len - 1]
  }

  datatype PrefOutcome = PrefOutcome(path: Option<string>, userServiceInitCalled: bool, firstRun: bool)

  /** The string `SDL_GetPrefPath` formats before any truncation. */
  function PrefString(prefix: string, org: string, app: string): string
  {
    if org != "" then prefix + org + "/" + app + "/" else prefix + app + "/"
  }

  /** `SDL_GetPrefPath`. `firstRun` is the `first_run` static; `userId` the
      result of `sceUserServiceGetForegroundUser` (`None` on failure);
      `allocOk` whether `SDL_malloc` succeeded. */
  function PrefPath(org: Option<string>, app: Option<string>, firstRun: bool,
                    userId: Option<u32>, allocOk: bool): (r: PrefOutcome)
    ensures app.None? ==> r == PrefOutcome(None, false, firstRun)
    ensures app.Some? ==> r.userServiceInitCalled == firstRun && !r.firstRun
    ensures r.path.Some? <==> app.Some? && allocOk
    ensures r.path.Some? ==>
      r.path.value == PrefString(UserPrefix(userId), if org.Some? then org.value else "", app.value)
  {
    if app.None? then PrefOutcome(None, false, firstRun)
    else
      var o := if org.Some? then org.value else "";
      var prefix := UserPrefix(userId);
      var len := |prefix| + |o| + |app.value| + 3;
      if !allocOk then PrefOutcome(None, firstRun, false)
      else
        var full := PrefString(prefix, o, app.value);
        assert |full| + 1 <= len;
        PrefOutcome(Some(Snprintf(full, len)), firstRun, false)
  }

  /** A missing organisation behaves exactly like an empty one. */
  lemma PrefPathNoOrgIsEmptyOrg(app: Option<string>, firstRun: bool, userId: Option<u32>, allocOk: bool)
    ensures PrefPath(None, app, firstRun, userId, allocOk) == PrefPath(Some(""), app, firstRun, userId, allocOk)
  {
  }

  /** The buffer `SDL_GetPrefPath` allocates holds the formatted path and
      its NUL, with one character to spare when there is no organisation. */
  lemma PrefBufferFits(prefix: string, org: string, app: string)
    ensures |PrefString(prefix, org, app)| + 1 == |prefix| + |org| + |app| + 3 - (if org != "" then 0 else 1)
  {
  }

  /** Every preference path is a directory path: it starts with the user
      prefix and ends with '/', and the application name sits just before
      the final '/'. */
  lemma PrefPathShape(org: Option<string>, app: string, firstRun: bool, userId: Option<u32>)
    ensures var p := PrefPath(org, Some(app), firstRun, userId, true).path.value;
      var prefix := UserPrefix(userId);
      && p[..|prefix|] == prefix
      && EndsWithSlash(p)
      && p[|p| - 1 - |app| .. |p| - 1] == app
  {
  }

  // ---------------------------------------------------------------------
  // Creating the directories
  // ---------------------------------------------------------------------

  /** The C string a buffer holds: everything before its first NUL. */
  function CStr(buf: string): (s: string)
    ensures |s| <= |buf| && s == buf[..|s|] && NoNul(s)
    ensures |s| < |buf| ==> buf[|s|] == '\0'
  {
    if buf == [] || buf[0] == '\0' then [] else [buf[0]] + CStr(buf[1..])
  }

  /** A buffer without NUL is its own C string. */
  lemma {:induction false} CStrOfNoNul(buf: string)
    requires NoNul(buf)
    ensures CStr(buf) == buf
  {
    if buf != [] {
      CStrOfNoNul(buf[1..]);
    }
  }

  /** A buffer whose first NUL is at index `i` holds the C string of its
      first `i` characters. */
  lemma {:induction false} CStrOfFirstNul(buf: string, i: nat)
    requires i < |buf| && buf[i] == '\0'
    requires forall j :: 0 <= j < i ==> buf[j] != '\0'
    ensures CStr(buf) == buf[..i]
  {
    if i > 0 {
      CStrOfFirstNul(buf[1..], i - 1);
      assert buf[..i] == [buf[0]] + buf[1..][..i - 1];
    }
  }

  /** Writing a NUL at index `i` of a C string cuts it there. */
  lemma CStrOfCut(path: string, i: nat)
    requires NoNul(path) && i < |path|
    ensures CStr(path[i := '\0']) == path[..i]
  {
    var buf := path[i := '\0'];
    CStrOfFirstNul(buf, i);
    assert buf[..i] == path[..i];
  }

  /** The paths handed to `mkdir` inside the loop for the positions 1 to
      `i - 1`: the part before every '/' found there. */
  function SlashPrefixes(path: string, i: nat): (ps: seq<string>)
    requires i <= |path|
  {
    if i <= 1 then []
    else SlashPrefixes(path, i - 1) + (if path[i - 1] == '/' then [path[..i - 1]] else [])
  }

  /** A loop call is a proper, non-empty prefix that stops just before a
      '/', and every such prefix is called. */
  lemma {:induction false} SlashPrefixesMember(path: string, i: nat, p: string)
    requires i <= |path|
    ensures p in SlashPrefixes(path, i) <==>
      1 <= |p| < i && p == path[..|p|] && path[|p|] == '/'
  {
    if i > 1 {
      SlashPrefixesMember(path, i - 1, p);
    }
  }

  /** Loop calls come in order of length, so a directory is created before
      any directory inside it. */
  lemma {:induction false} SlashPrefixesAscending(path: string, i: nat)
    requires i <= |path|
    ensures forall a, b :: 0 <= a < b < |SlashPrefixes(path, i)| ==>
      |SlashPrefixes(path, i)[a]| < |SlashPrefixes(path, i)[b]|
    ensures forall a :: 0 <= a < |SlashPrefixes(path, i)| ==> |SlashPrefixes(path, i)[a]| < i
  {
    if i > 1 {
      SlashPrefixesAscending(path, i - 1);
      var ps := SlashPrefixes(path, i);
      var prev := SlashPrefixes(path, i - 1);
      forall a | 0 <= a < |ps|
        ensures |ps[a]| < i
      {
        if a < |prev| {
          assert ps[a] == prev[a];
        } else {
          assert ps[a] == path[..i - 1];
        }
      }
      forall a, b | 0 <= a < b < |ps|
        ensures |ps[a]| < |ps[b]|
      {
        assert ps[a] == prev[a];
        if b < |prev| {
          assert ps[b] == prev[b];
        } else {
          assert ps[b] == path[..i - 1];
        }
      }
    }
  }

  /** The directory loop of `SDL_GetPrefPath` and the final `mkdir`: for
      every '/' from index 1 on it writes a NUL there, creates the
      directory the buffer now names and puts the '/' back. Returns the
      paths handed to `mkdir`, in order, and the buffer afterwards. */
  method MakeDirs(path: string) returns (calls: seq<string>, buf: string)
    requires |path| >= 1 && NoNul(path)
    ensures buf == path
    ensures calls == SlashPrefixes(path, |path|) + [path]
  {
    buf := path;
    calls := [];
    var i := 1;
    while i < |buf| && buf[i] != '\0'
      invariant 1 <= i <= |path|
      invariant buf == path
      invariant calls == SlashPrefixes(path, i)
    {
      if buf[i] == '/' {
        buf := buf[i := '\0'];
        CStrOfCut(path, i);
        calls := calls + [CStr(buf)];
        buf := buf[i := '/'];
      }
      i := i + 1;
    }
    CStrOfNoNul(buf);
    calls := calls + [CStr(buf)];
  }

  /** Positions without a '/' add no call. */
  lemma {:induction false} SlashPrefixesSkip(path: string, i: nat, j: nat)
    requires 1 <= i <= j <= |path|
    requires forall k :: i <= k < j ==> path[k] != '/'
    ensures SlashPrefixes(path, j) == SlashPrefixes(path, i)
    decreases j - i
  {
    if i < j {
      SlashPrefixesSkip(path, i, j - 1);
    }
  }

  /** The first directory of "/data/<app>/" is "/data". */
  lemma DataDirFirst(p: string, app: string)
    requires p == "/data/" + app + "/"
    ensures SlashPrefixes(p, 6) == ["/data"]
  {
    assert p[..6] == "/data/";
    SlashPrefixesSkip(p, 1, 5);
    assert SlashPrefixes(p, 6) == [p[..5]];
    assert p[..5] == "/data";
  }

  /** Past "/data/", the next '/' is the one that closes the application
      directory. */
  lemma AppDirNext(p: string, app: string)
    requires p == "/data/" + app + "/"
    requires '/' !in app
    ensures SlashPrefixes(p, |p|) == SlashPrefixes(p, 6) + ["/data/" + app]
  {
    forall k | 6 <= k < 6 + |app|
      ensures p[k] != '/'
    {
      assert p[k] == app[k - 6];
    }
    SlashPrefixesSkip(p, 6, 6 + |app|);
    assert p[..|p| - 1] == "/data/" + app;
  }

  /** For an application directory under "/data/", `mkdir` is handed
      "/data" first and then "/data/<app>". */
  lemma DataPrefixCreatedFirst(app: string)
    requires '/' !in app
    ensures var p := PrefString("/data/", "", app);
      SlashPrefixes(p, |p|) == ["/data", "/data/" + app]
  {
    var p := PrefString("/data/", "", app);
    assert p == "/data/" + app + "/";
    DataDirFirst(p, app);
    AppDirNext(p, app);
  }

  /** The preference path has no NUL when its parts have none. */
  lemma PrefStringNoNul(prefix: string, org: string, app: string)
    requires NoNul(prefix) && NoNul(org) && NoNul(app)
    ensures NoNul(PrefString(prefix, org, app)) && |PrefString(prefix, org, app)| >= 1
  {
    var p := PrefString(prefix, org, app);
    forall j | 0 <= j < |p|
      ensures p[j] != '\0'
    {
      if org != "" {
        assert p == prefix + org + "/" + app + "/";
      } else {
        assert p == prefix + app + "/";
      }
    }
  }

  /** `SDL_GetPrefPath` with its directory creation: the path it returns
      and, when there is one, the paths it hands to `mkdir` in order. The
      org and app arguments are C strings, so they hold no NUL. */
  method GetPrefPath(org: Option<string>, app: Option<string>, firstRun: bool,
                     userId: Option<u32>, allocOk: bool)
    returns (r: PrefOutcome, mkdirs: seq<string>)
    requires org.Some? ==> NoNul(org.value)
    requires app.Some? ==> NoNul(app.value)
    ensures r == PrefPath(org, app, firstRun, userId, allocOk)
    ensures r.path.None? ==> mkdirs == []
    ensures r.path.Some? ==>
      && |mkdirs| >= 1 && mkdirs[|mkdirs| - 1] == r.path.value
      && mkdirs[..|mkdirs| - 1] == SlashPrefixes(r.path.value, |r.path.value|)
  {
    r := PrefPath(org, app, firstRun, userId, allocOk);
    mkdirs := [];
    if r.path.Some? {
      var o := if org.Some? then org.value else "";
      PrefStringNoNul(UserPrefix(userId), o, app.value);
      var buf;
      mkdirs, buf := MakeDirs(r.path.value);
    }
  }

  /** For the "/data/" prefix and no organisation, `SDL_GetPrefPath` creates
      "/data", then "/data/<app>", then the path itself. */
  method DataPrefDirs(app: string) returns (mkdirs: seq<string>)
    requires '/' !in app && NoNul(app)
    ensures mkdirs == ["/data", "/data/" + app, "/data/" + app + "/"]
  {
    var r;
    r, mkdirs := GetPrefPath(None, Some(app), false, None, true);
    var p := PrefString("/data/", "", app);
    assert r.path == Some(p);
    DataPrefixCreatedFirst(app);
    assert p == "/data/" + app + "/";
  }
}
