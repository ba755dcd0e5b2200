/** The steps of the installer that edit the `.env` file (install.py). */
module Installer {
  import opened Wrappers
  import opened Text
  import opened EnvFile

  type Pair = (string, string)

  function Or(o: Option<string>): string { if o.Some? then o.value else "" }

  ghost predicate Writable(kvs: seq<Pair>) { forall p :: p in kvs ==> Key(p.0) && OneLine(p.1) }

  /** Several `set_env` calls in a row. */
  function SetAll(c: Content, kvs: seq<Pair>): Content
    decreases |kvs|
  {
    if kvs == [] then c else
    var n := |kvs| - 1;
    SetIn(SetAll(c, kvs[..n]), kvs[n].0, kvs[n].1)
  }

  /** The value written last for `k`. */
  function Assigned(kvs: seq<Pair>, k: string): Option<string>
    decreases |kvs|
  {
    if kvs == [] then None else
    var n := |kvs| - 1;
    if kvs[n].0 == k then Some(kvs[n].1) else Assigned(kvs[..n], k)
  }

  lemma SetInShadows(c: Content, k: string, v: string, other: string)
    requires Key(k) && Key(other) && OneLine(v)
    ensures Shadowed(Lines(SetIn(c, k, v)), other) <==> Shadowed(Lines(c), other)
  {
    hide Shadowed, Set, Lines, SetIn, Render;
    LinesAfterSet(c, k, v);
    SetKeepsShadows(Lines(c), k, v, other);
  }

  /** A run of sets reads as the map updated by all of them, but for shadowed keys. */
  lemma {:induction false} SetAllReads(c: Content, kvs: seq<Pair>, k: string)
    requires Writable(kvs) && Key(k)
    ensures Shadowed(Lines(SetAll(c, kvs)), k) <==> Shadowed(Lines(c), k)
    ensures ReadIn(SetAll(c, kvs), k)
              == if Assigned(kvs, k).None? || Shadowed(Lines(c), k) then ReadIn(c, k)
                 else Some(RStrip(Assigned(kvs, k).value))
    decreases |kvs|
  {
    hide Shadowed, ReadIn, SetIn, RStrip, Lines, OneLine, Key;
    if kvs != [] {
      var n := |kvs| - 1;
      assert kvs[n] in kvs && forall p :: p in kvs[..n] ==> p in kvs;
      SetAllReads(c, kvs[..n], k);
      SetInShadows(SetAll(c, kvs[..n]), kvs[n].0, kvs[n].1, k);
      SetRefinesMap(SetAll(c, kvs[..n]), kvs[n].0, kvs[n].1, k);
    }
  }

  // ---------- ensure_update_ops_env ----------

  const DEFAULTS: seq<Pair> := [
    ("S3_ACCESS_KEY", "minioadmin"),
    ("S3_SECRET_KEY", "minioadmin"),
    ("S3_BUCKET", "mem0-backups"),
    ("S3_ENDPOINT", "http://minio:9000"),
    ("PLANKA_INTERNAL_URL", "http://planka:1337"),
    ("PLANKA_PUBLIC_URL", "/planka"),
    ("PLANKA_MIRROR_SYNC", "1"),
    ("PLANKA_INTERNAL_ACCESS_TOKEN", "local"),
    ("INTERNAL_ACCESS_TOKEN", "local")
  ]
  const PLANKA_BASE_URL := "PLANKA_BASE_URL"
  const NEXTAUTH_URL := "NEXTAUTH_URL"
  const BOARD_PATH := "/planka"
  const FALLBACK_URL := "https://memorias.sysmo.com.br/planka"

  predicate Blank(o: Option<string>) { Strip(Or(o)) == "" }

  function Fill(c: Content, k: string, v: string): Content { if Blank(ReadIn(c, k)) then SetIn(c, k, v) else c }

  function FillAll(c: Content, kvs: seq<Pair>): Content
    decreases |kvs|
  {
    if kvs == [] then c else
    var n := |kvs| - 1;
    Fill(FillAll(c, kvs[..n]), kvs[n].0, kvs[n].1)
  }

  function RStripSlash(s: string): string
    decreases |s|
  {
    if s != "" && s[|s| - 1] == '/' then RStripSlash(s[..|s| - 1]) else s
  }

  /** The absolute URL of the board. */
  function Absolute(c: Content): string {
    var nextauth := RStripSlash(Or(ReadIn(c, NEXTAUTH_URL)));
    if nextauth != "" then nextauth + BOARD_PATH else FALLBACK_URL
  }

  /** Blank, or relative to the site. */
  predicate NeedsBase(o: Option<string>) { Strip(Or(o)) == "" || Strip(Or(o))[0] == '/' }

  function FillBase(c: Content): Content {
    if NeedsBase(ReadIn(c, PLANKA_BASE_URL)) then SetIn(c, PLANKA_BASE_URL, Absolute(c)) else c
  }

  function EnsureOps(c: Content): Content { FillBase(FillAll(c, DEFAULTS)) }

  method FillDefaults(env: File, defaults: seq<Pair>)
    modifies env
    ensures env.content == FillAll(old(env.content), defaults)
  {
    hide ReadIn, SetIn, Strip;
    for i := 0 to |defaults|
      invariant env.content == FillAll(old(env.content), defaults[..i])
    {
      assert defaults[..i + 1][..i] == defaults[..i];
      var v := env.ReadEnv(defaults[i].0);
      if Strip(Or(v)) == "" { env.SetEnv(defaults[i].0, defaults[i].1); }
    }
    assert defaults[..|defaults|] == defaults;
  }

  /** `ensure_update_ops_env` */
  method EnsureUpdateOpsEnv(env: File)
    modifies env
    ensures env.content == EnsureOps(old(env.content))
  {
    hide ReadIn, SetIn, Strip, RStripSlash, FillAll;
    FillDefaults(env, DEFAULTS);
    var b := env.ReadEnv(PLANKA_BASE_URL);
    var base := Strip(Or(b));
    if base == "" || base[0] == '/' {
      var n := env.ReadEnv(NEXTAUTH_URL);
      var nextauth := RStripSlash(Or(n));
      var absolute := if nextauth != "" then nextauth + BOARD_PATH else FALLBACK_URL;
      env.SetEnv(PLANKA_BASE_URL, absolute);
    }
  }

  /** A position for each name the two steps write, read off its length and one character. */
  function Rank(s: string): nat {
    if |s| == 13 then (if s[3] == 'A' then 0 else 1)
    else if |s| == 9 then 2 else if |s| == 11 then 3 else if |s| == 19 then 4 else if |s| == 17 then 5
    else if |s| == 18 then 6 else if |s| == 28 then 7 else if |s| == 21 then 8 else if |s| == 15 then 9 else 10
  }

  lemma DefaultRanks()
    ensures forall i :: 0 <= i < |DEFAULTS| ==> Rank(DEFAULTS[i].0) == i
    ensures Rank(PLANKA_BASE_URL) == 9
  {
  }

  lemma AccessKey()
    ensures Key(DEFAULTS[0].0) && OneLine(DEFAULTS[0].1)
  {
  }

  lemma StorageKeys()
    ensures forall i :: 1 <= i < 3 ==> Key(DEFAULTS[i].0) && OneLine(DEFAULTS[i].1)
  {
  }

  lemma UrlKeys()
    ensures forall i :: 3 <= i < 5 ==> Key(DEFAULTS[i].0) && OneLine(DEFAULTS[i].1)
  {
  }

  lemma BoardDefaultKeys()
    ensures forall i :: 5 <= i < 7 ==> Key(DEFAULTS[i].0) && OneLine(DEFAULTS[i].1)
  {
  }

  lemma MirrorTokenKey()
    ensures Key(DEFAULTS[7].0) && OneLine(DEFAULTS[7].1)
  {
  }

  lemma AccessTokenKey()
    ensures Key(DEFAULTS[8].0) && OneLine(DEFAULTS[8].1)
  {
  }

  lemma BoardKeys()
    ensures Key(PLANKA_BASE_URL) && Key(NEXTAUTH_URL)
  {
  }

  ghost predicate DistinctKeys(kvs: seq<Pair>) { forall i, j :: 0 <= i < j < |kvs| ==> kvs[i].0 != kvs[j].0 }

  lemma DefaultsAreFine()
    ensures Writable(DEFAULTS) && DistinctKeys(DEFAULTS)
    ensures forall p :: p in DEFAULTS ==> p.0 != PLANKA_BASE_URL && p.0 != NEXTAUTH_URL
  {
    hide Key, OneLine, Rank;
    AccessKey();
    StorageKeys();
    UrlKeys();
    BoardDefaultKeys();
    MirrorTokenKey();
    AccessTokenKey();
    DefaultRanks();
    BoardRanks();
    forall p | p in DEFAULTS ensures Key(p.0) && OneLine(p.1) && p.0 != PLANKA_BASE_URL && p.0 != NEXTAUTH_URL {
      var i :| 0 <= i < |DEFAULTS| && DEFAULTS[i] == p;
      assert Rank(p.0) == i;
    }
    forall i, j | 0 <= i < j < |DEFAULTS| ensures DEFAULTS[i].0 != DEFAULTS[j].0 {
      assert Rank(DEFAULTS[i].0) == i && Rank(DEFAULTS[j].0) == j;
    }
  }

  lemma BoardRanks()
    ensures Rank(PLANKA_BASE_URL) == 9 && Rank(NEXTAUTH_URL) == 10
  {
  }

  lemma {:induction false} NotAssigned(kvs: seq<Pair>, k: string)
    ensures Assigned(kvs, k).None? <==> forall p :: p in kvs ==> p.0 != k
    decreases |kvs|
  {
    if kvs != [] {
      var n := |kvs| - 1;
      NotAssigned(kvs[..n], k);
      assert kvs[n] in kvs && forall p :: p in kvs[..n] ==> p in kvs;
      assert forall p :: p in kvs ==> p == kvs[n] || p in kvs[..n];
    }
  }

  /** Whether the default of `k` is written: it has one, is blank and is not shadowed. */
  predicate Filled(c: Content, kvs: seq<Pair>, k: string) {
    Assigned(kvs, k).Some? && Blank(ReadIn(c, k)) && !Shadowed(Lines(c), k)
  }

  lemma FillOther(c: Content, k: string, v: string, other: string)
    requires Key(k) && Key(other) && OneLine(v)
    ensures Shadowed(Lines(Fill(c, k, v)), other) <==> Shadowed(Lines(c), other)
    ensures ReadIn(Fill(c, k, v), other)
              == if k == other && Blank(ReadIn(c, k)) && !Shadowed(Lines(c), k) then Some(RStrip(v))
                 else ReadIn(c, other)
  {
    hide Shadowed, ReadIn, SetIn, RStrip, Lines, Key, OneLine, Blank;
    SetInShadows(c, k, v, other);
    SetRefinesMap(c, k, v, other);
  }

  /** After the loop a blank, unshadowed key has its default; every other key is as before. */
  lemma {:induction false} FillAllReads(c: Content, kvs: seq<Pair>, k: string)
    requires Writable(kvs) && DistinctKeys(kvs) && Key(k)
    ensures Shadowed(Lines(FillAll(c, kvs)), k) <==> Shadowed(Lines(c), k)
    ensures ReadIn(FillAll(c, kvs), k)
              == if Filled(c, kvs, k) then Some(RStrip(Assigned(kvs, k).value)) else ReadIn(c, k)
    decreases |kvs|
  {
    hide Shadowed, ReadIn, SetIn, RStrip, Lines, Key, OneLine, Blank, Fill;
    if kvs != [] {
      var n := |kvs| - 1;
      assert kvs[n] in kvs && forall p :: p in kvs[..n] ==> p in kvs;
      FillAllReads(c, kvs[..n], k);
      FillOther(FillAll(c, kvs[..n]), kvs[n].0, kvs[n].1, k);
      NotAssigned(kvs[..n], k);
      if kvs[n].0 == k { DistinctLast(kvs); }
    }
  }

  lemma DistinctLast(kvs: seq<Pair>)
    requires kvs != [] && DistinctKeys(kvs)
    ensures forall p :: p in kvs[..|kvs| - 1] ==> p.0 != kvs[|kvs| - 1].0
  {
  }

  lemma SliceOneLine(s: string, i: nat, j: nat)
    requires OneLine(s) && i <= j <= |s|
    ensures OneLine(s[i..j])
  {
  }

  lemma {:induction false} RStripSlashOneLine(s: string)
    requires OneLine(s)
    ensures OneLine(RStripSlash(s))
    decreases |s|
  {
    if s != "" && s[|s| - 1] == '/' { RStripSlashOneLine(s[..|s| - 1]); }
  }

  /** What stripping trailing slashes leaves. */
  lemma {:induction false} RStripSlashIs(s: string, slashes: string)
    requires (s != "" ==> s[|s| - 1] != '/') && forall i :: 0 <= i < |slashes| ==> slashes[i] == '/'
    ensures RStripSlash(s + slashes) == s
    decreases |slashes|
  {
    if slashes == "" {
      assert s + slashes == s;
    } else {
      assert (s + slashes)[..|s + slashes| - 1] == s + slashes[..|slashes| - 1];
      RStripSlashIs(s, slashes[..|slashes| - 1]);
    }
  }

  /** The URL the board gets: that of the site, without trailing slashes, and the board's path;
      or the fallback when no site is set. */
  lemma AbsoluteIs(c: Content, site: string, slashes: string)
    requires Or(ReadIn(c, "NEXTAUTH_URL")) == site + slashes
    requires (site != "" ==> site[|site| - 1] != '/') && forall i :: 0 <= i < |slashes| ==> slashes[i] == '/'
    ensures Absolute(c) == if site != "" then site + "/planka" else "https://memorias.sysmo.com.br/planka"
  {
    hide ReadIn, RStripSlash;
    RStripSlashIs(site, slashes);
  }

  /** The board's URL is replaced when it is all white space, or starts with a slash after some. */
  lemma NeedsBaseIff(o: Option<string>)
    ensures Blank(o) <==> forall i :: 0 <= i < |Or(o)| ==> IsSpace(Or(o)[i])
    ensures NeedsBase(o) <==>
              || Blank(o)
              || exists n :: 0 <= n < |Or(o)| && Or(o)[n] == '/' && forall i :: 0 <= i < n ==> IsSpace(Or(o)[i])
  {
    var s := Or(o);
    var a, b := StripRemoves(s);
    StripTrims(s);
    var t := Strip(s);
    if t != "" {
      assert s[|a|] == t[0] && !IsSpace(t[0]);
      assert forall i :: 0 <= i < |a| ==> s[i] == a[i];
    } else {
      assert forall i :: 0 <= i < |s| ==> s[i] == if i < |a| then a[i] else b[i - |a|];
    }
  }

  lemma {:induction false} ReadOneLine(lines: seq<string>, k: string)
    requires AllOneLine(lines)
    ensures OneLine(Or(Read(lines, k)))
    decreases |lines|
  {
    if lines != [] {
      assert lines[0] in lines && forall l :: l in lines[1..] ==> l in lines;
      if ReadMatches(lines[0], k) {
        var l := LStrip(lines[0]);
        SliceOneLine(lines[0], Leading(lines[0]), |lines[0]|);
        assert l == lines[0][Leading(lines[0])..|lines[0]|];
        SliceOneLine(l, |k| + 1, Trailing(l));
        assert Strip(lines[0])[|k| + 1..] == l[|k| + 1..Trailing(l)];
      } else {
        ReadOneLine(lines[1..], k);
      }
    }
  }

  lemma PathsOneLine()
    ensures OneLine(BOARD_PATH) && OneLine(FALLBACK_URL)
  {
  }

  lemma ConcatOneLine(a: string, b: string)
    requires OneLine(a) && OneLine(b)
    ensures OneLine(a + b)
  {
  }

  lemma AbsoluteOneLine(c: Content)
    ensures OneLine(Absolute(c))
  {
    hide SplitLines, Read, RStripSlash, OneLine, BOARD_PATH, FALLBACK_URL;
    PathsOneLine();
    if c.Some? { SplitLinesAreLines(c.value); }
    ReadOneLine(Lines(c), NEXTAUTH_URL);
    RStripSlashOneLine(Or(ReadIn(c, NEXTAUTH_URL)));
    ConcatOneLine(RStripSlash(Or(ReadIn(c, NEXTAUTH_URL))), BOARD_PATH);
  }

  lemma FillAllKeepsBoard(c: Content)
    ensures ReadIn(FillAll(c, DEFAULTS), PLANKA_BASE_URL) == ReadIn(c, PLANKA_BASE_URL)
    ensures Absolute(FillAll(c, DEFAULTS)) == Absolute(c)
    ensures Shadowed(Lines(FillAll(c, DEFAULTS)), PLANKA_BASE_URL) <==> Shadowed(Lines(c), PLANKA_BASE_URL)
  {
    hide Shadowed, ReadIn, FillAll, RStrip, Lines, Key, OneLine, Blank, RStripSlash, DEFAULTS;
    DefaultsAreFine();
    BoardKeys();
    NotAssigned(DEFAULTS, PLANKA_BASE_URL);
    NotAssigned(DEFAULTS, NEXTAUTH_URL);
    FillAllReads(c, DEFAULTS, PLANKA_BASE_URL);
    FillAllReads(c, DEFAULTS, NEXTAUTH_URL);
  }

  /** What `k` reads after the whole step: the board's URL is made absolute when it is blank
      or relative, a blank default is filled, and all other keys are left alone. */
  lemma EnsureOpsReads(c: Content, k: string)
    requires Key(k)
    ensures ReadIn(EnsureOps(c), k)
              == if k == PLANKA_BASE_URL then
                   if NeedsBase(ReadIn(c, k)) && !Shadowed(Lines(c), k) then Some(RStrip(Absolute(c))) else ReadIn(c, k)
                 else if Filled(c, DEFAULTS, k) then Some(RStrip(Assigned(DEFAULTS, k).value))
                 else ReadIn(c, k)
  {
    hide Shadowed, ReadIn, FillAll, RStrip, Lines, Key, OneLine, NeedsBase, Absolute, DEFAULTS, Filled,
      PLANKA_BASE_URL, SetIn;
    var filled := FillAll(c, DEFAULTS);
    DefaultsAreFine();
    BoardKeys();
    FillAllKeepsBoard(c);
    FillAllReads(c, DEFAULTS, k);
    AbsoluteOneLine(filled);
    SetRefinesMap(filled, PLANKA_BASE_URL, Absolute(filled), k);
  }

  /** A key that is not blank is never overwritten, a relative board URL excepted. */
  lemma NonBlankIsKept(c: Content, k: string)
    requires Key(k) && !Blank(ReadIn(c, k))
    requires k == PLANKA_BASE_URL ==> Strip(Or(ReadIn(c, k)))[0] != '/'
    ensures ReadIn(EnsureOps(c), k) == ReadIn(c, k)
  {
    hide Shadowed, ReadIn, EnsureOps, RStrip, Lines, Key, Strip, Assigned, DEFAULTS;
    EnsureOpsReads(c, k);
  }

  // ---------- running it again ----------

  /** A fill that would change nothing still would after a set of another key. */
  lemma FixedSurvives(c: Content, k: string, v: string, k2: string, v2: string)
    requires Key(k) && Key(k2) && OneLine(v) && OneLine(v2) && k != k2
    requires Fill(c, k, v) == c
    ensures Fill(SetIn(c, k2, v2), k, v) == SetIn(c, k2, v2)
  {
    hide Set, Read, Render, SplitLines, Key, OneLine, Target, Shadowed, RStrip, Blank, Lines;
    LinesAfterSet(c, k2, v2);
    SetRefinesMap(c, k2, v2, k);
    if Blank(ReadIn(c, k)) {
      LinesAfterSet(c, k, v);
      SetIsNoopIff(Lines(c), k, v);
      SetTarget(Lines(c), k2, v2, k);
      SetIsNoopIff(Set(Lines(c), k2, v2), k, v);
    }
  }

  lemma FillTwice(c: Content, k: string, v: string)
    requires Key(k) && OneLine(v)
    ensures Fill(Fill(c, k, v), k, v) == Fill(c, k, v)
  {
    hide SetIn, ReadIn, Blank, RStrip, Shadowed, Lines;
    SetRefinesMap(c, k, v, k);
  }

  lemma {:induction false} AllFixed(c: Content, kvs: seq<Pair>, i: nat)
    requires Writable(kvs) && DistinctKeys(kvs) && i < |kvs|
    ensures Fill(FillAll(c, kvs), kvs[i].0, kvs[i].1) == FillAll(c, kvs)
    decreases |kvs|
  {
    hide SetIn, ReadIn, Blank, Key, OneLine;
    var n := |kvs| - 1;
    assert kvs[i] in kvs && kvs[n] in kvs && forall p :: p in kvs[..n] ==> p in kvs;
    var before := FillAll(c, kvs[..n]);
    if i == n {
      FillTwice(before, kvs[n].0, kvs[n].1);
    } else {
      AllFixed(c, kvs[..n], i);
      FixedSurvives(before, kvs[i].0, kvs[i].1, kvs[n].0, kvs[n].1);
    }
  }

  lemma {:induction false} FixedFillAll(c: Content, kvs: seq<Pair>)
    requires forall i :: 0 <= i < |kvs| ==> Fill(c, kvs[i].0, kvs[i].1) == c
    ensures FillAll(c, kvs) == c
    decreases |kvs|
  {
    hide Fill;
    if kvs != [] { FixedFillAll(c, kvs[..|kvs| - 1]); }
  }

  lemma AbsoluteSurvives(c: Content, v: string)
    requires OneLine(v)
    ensures Absolute(SetIn(c, PLANKA_BASE_URL, v)) == Absolute(c)
  {
    hide SetIn, ReadIn, RStripSlash, Key, Rank, Shadowed, RStrip, Lines;
    BoardKeys();
    BoardRanks();
    SetRefinesMap(c, PLANKA_BASE_URL, v, NEXTAUTH_URL);
  }

  lemma FillBaseTwice(c: Content)
    ensures FillBase(FillBase(c)) == FillBase(c)
  {
    hide SetIn, ReadIn, NeedsBase, Absolute, Key, Shadowed, RStrip, Lines;
    BoardKeys();
    AbsoluteOneLine(c);
    AbsoluteSurvives(c, Absolute(c));
    SetRefinesMap(c, PLANKA_BASE_URL, Absolute(c), PLANKA_BASE_URL);
  }

  /** The step is idempotent on every file. */
  lemma EnsureOpsTwice(c: Content)
    ensures EnsureOps(EnsureOps(c)) == EnsureOps(c)
  {
    hide SetIn, Fill, FillAll, NeedsBase, Absolute, Key, OneLine, ReadIn, DEFAULTS;
    var filled, done := FillAll(c, DEFAULTS), EnsureOps(c);
    DefaultsAreFine();
    BoardKeys();
    AbsoluteOneLine(filled);
    forall i: nat | i < |DEFAULTS| ensures Fill(done, DEFAULTS[i].0, DEFAULTS[i].1) == done {
      assert DEFAULTS[i] in DEFAULTS;
      AllFixed(c, DEFAULTS, i);
      FixedSurvives(filled, DEFAULTS[i].0, DEFAULTS[i].1, PLANKA_BASE_URL, Absolute(filled));
    }
    FixedFillAll(done, DEFAULTS);
    FillBaseTwice(filled);
  }

  // ---------- write_inference_scale ----------

  /** The names written for the two roles, and the fail-closed flag. */
  const NAMES: seq<string> := [
    "LLM_MODEL", "LLM_PROVIDER", "OLLAMA_LLM_URL", "LLM_BASE_URL", "LLM_API_KEY",
    "EMBEDDER_MODEL", "EMBEDDER_PROVIDER", "OLLAMA_EMBED_URL", "EMBEDDER_BASE_URL", "EMBEDDER_API_KEY",
    "MEM0_LOCAL_ONLY"
  ]
  const FLAG := 10

  /** Names that clouds are known by. */
  const CLOUD: set<string> := {"openai", "anthropic", "gemini", "groq", "together", "azure", "cohere", "mistral",
                               "replicate", "huggingface"}

  function EndsWith(s: string, t: string): bool { |t| <= |s| && s[|s| - |t|..] == t }

  /** The parts of the standard library the check relies on: the lower-case host name of a
      URL ("" if none), whether an address is loopback, private or link-local (None: no
      address), and `container_host_url`. */
  datatype Net = Net(host: string -> string, address: string -> Option<bool>, fromContainer: string -> string)

  /** `host_is_local` */
  function HostIsLocal(net: Net, url: string): bool {
    if url == "" then false else
    var host := net.host(url);
    if host == "" then false
    else if host == "localhost" || host == "host.docker.internal" then true
    else if EndsWith(host, ".local") || EndsWith(host, ".internal") then true
    else if net.address(host).Some? then net.address(host).value
    else '.' !in host && host !in CLOUD
  }

  /** A URL is local iff it has a host, and that is this machine, a name under .local or
      .internal, a loopback, private or link-local address, or else a name of one word by which
      no cloud is known. */
  lemma HostIsLocalIff(net: Net, url: string)
    ensures HostIsLocal(net, url) <==>
              && url != "" && net.host(url) != ""
              && var host := net.host(url);
              || host in {"localhost", "host.docker.internal"}
              || (exists name :: host == name + ".local" || host == name + ".internal")
              || net.address(host) == Some(true)
              || (net.address(host) == None && '.' !in host
                  && host !in {"openai", "anthropic", "gemini", "groq", "together", "azure", "cohere", "mistral",
                               "replicate", "huggingface"})
  {
    var host := net.host(url);
    EndsWithIff(host, ".local");
    EndsWithIff(host, ".internal");
  }

  lemma EndsWithIff(s: string, t: string)
    ensures EndsWith(s, t) <==> exists name :: s == name + t
  {
    if EndsWith(s, t) { assert s == s[..|s| - |t|] + t; }
    if name :| s == name + t { assert (name + t)[|name|..] == t; }
  }

  /** The inference backend of one role; None and "" are both false in the source. */
  datatype Spec = Spec(model: string, provider: string, baseUrl: Option<string>, apiKey: Option<string>,
    ollamaUrl: Option<string>)

  function OrElse(o: Option<string>, d: string): string { if Or(o) != "" then Or(o) else d }

  function Base(net: Net, s: Spec, ollamaUrl: string): string {
    if s.provider == "openai" then RStripSlash(Or(s.baseUrl)) else net.fromContainer(OrElse(s.ollamaUrl, ollamaUrl))
  }

  function ApiKey(s: Spec): string { if s.provider == "openai" then OrElse(s.apiKey, "sk-no-key") else Or(s.apiKey) }

  function RoleValues(net: Net, s: Spec, ollamaUrl: string): seq<string> {
    var base := Base(net, s, ollamaUrl);
    [s.model, s.provider, base, base, ApiKey(s)]
  }

  function BothLocal(net: Net, llm: Spec, emb: Spec, ollamaUrl: string): bool {
    HostIsLocal(net, Base(net, llm, ollamaUrl)) && HostIsLocal(net, Base(net, emb, ollamaUrl))
  }

  /** The eleven values, in the order of NAMES. */
  function Values(net: Net, llm: Spec, emb: Spec, ollamaUrl: string): (vs: seq<string>)
    ensures |vs| == |NAMES|
  {
    RoleValues(net, llm, ollamaUrl) + RoleValues(net, emb, ollamaUrl)
      + [if BothLocal(net, llm, emb, ollamaUrl) then "1" else "0"]
  }

  function Zip(ks: seq<string>, vs: seq<string>): (kvs: seq<Pair>)
    requires |ks| == |vs|
    ensures |kvs| == |ks| && forall i :: 0 <= i < |kvs| ==> kvs[i] == (ks[i], vs[i])
  {
    seq(|ks|, i requires 0 <= i < |ks| => (ks[i], vs[i]))
  }

  function Written(c: Content, net: Net, llm: Spec, emb: Spec, ollamaUrl: string): Content {
    SetAll(c, Zip(NAMES, Values(net, llm, emb, ollamaUrl)))
  }

  lemma SetAllOne(c: Content, kvs: seq<Pair>, k: string, v: string)
    ensures SetAll(c, kvs + [(k, v)]) == SetIn(SetAll(c, kvs), k, v)
  {
    assert (kvs + [(k, v)])[..|kvs|] == kvs;
  }

  /** The five calls for one role: model, provider, Ollama URL, base URL, API key. */
  method WriteRole(env: File, names: seq<string>, net: Net, s: Spec, ollamaUrl: string, ghost c: Content,
        ghost done: seq<Pair>)
    returns (local: bool)
    requires |names| == 5 && env.content == SetAll(c, done)
    modifies env
    ensures env.content == SetAll(c, done + Zip(names, RoleValues(net, s, ollamaUrl)))
    ensures local == HostIsLocal(net, Base(net, s, ollamaUrl))
  {
    hide SetIn, HostIsLocal, RStripSlash, SetAll;
    env.SetEnv(names[0], s.model);
    env.SetEnv(names[1], s.provider);
    var base, key := "", "";
    if s.provider == "openai" {
      base := RStripSlash(Or(s.baseUrl));
      key := OrElse(s.apiKey, "sk-no-key");
    } else {
      base := net.fromContainer(OrElse(s.ollamaUrl, ollamaUrl));
      key := Or(s.apiKey);
    }
    env.SetEnv(names[2], base);
    env.SetEnv(names[3], base);
    env.SetEnv(names[4], key);
    local := HostIsLocal(net, base);
    FiveSets(c, done, names, [s.model, s.provider, base, base, key]);
  }

  lemma FiveSets(c: Content, done: seq<Pair>, ks: seq<string>, vs: seq<string>)
    requires |ks| == |vs| == 5
    ensures SetAll(c, done + Zip(ks, vs))
              == SetIn(SetIn(SetIn(SetIn(SetIn(SetAll(c, done), ks[0], vs[0]), ks[1], vs[1]), ks[2], vs[2]),
                             ks[3], vs[3]), ks[4], vs[4])
  {
    hide SetIn, SetAll;
    var d1 := done + [(ks[0], vs[0])];
    var d2 := d1 + [(ks[1], vs[1])];
    var d3 := d2 + [(ks[2], vs[2])];
    var d4 := d3 + [(ks[3], vs[3])];
    SetAllOne(c, done, ks[0], vs[0]);
    SetAllOne(c, d1, ks[1], vs[1]);
    SetAllOne(c, d2, ks[2], vs[2]);
    SetAllOne(c, d3, ks[3], vs[3]);
    SetAllOne(c, d4, ks[4], vs[4]);
    assert done + Zip(ks, vs) == d4 + [(ks[4], vs[4])];
  }

  lemma ZipAppend(ks: seq<string>, vs: seq<string>, ks': seq<string>, vs': seq<string>)
    requires |ks| == |vs| && |ks'| == |vs'|
    ensures Zip(ks, vs) + Zip(ks', vs') == Zip(ks + ks', vs + vs')
  {
  }

  /** The body of `write_inference_scale` for any names: those of the two roles, then the flag. */
  method WriteNames(env: File, names: seq<string>, net: Net, llm: Spec, emb: Spec, ollamaUrl: string)
    returns (public: bool)
    requires |names| == 11
    modifies env
    ensures env.content == SetAll(old(env.content), Zip(names, Values(net, llm, emb, ollamaUrl)))
    ensures public == !BothLocal(net, llm, emb, ollamaUrl)
  {
    hide SetAll, SetIn, HostIsLocal, RoleValues, Base;
    ghost var c := env.content;
    ghost var v1, v2 := RoleValues(net, llm, ollamaUrl), RoleValues(net, emb, ollamaUrl);
    SetAllNone(c);
    RoleValuesLength(net, llm, ollamaUrl);
    RoleValuesLength(net, emb, ollamaUrl);
    var local1 := WriteRole(env, names[..5], net, llm, ollamaUrl, c, []);
    assert [] + Zip(names[..5], v1) == Zip(names[..5], v1);
    var local2 := WriteRole(env, names[5..10], net, emb, ollamaUrl, c, Zip(names[..5], v1));
    public := !local1 || !local2;
    ZipAppend(names[..5], v1, names[5..10], v2);
    SetAllOne(c, Zip(names[..5] + names[5..10], v1 + v2), names[10], if public then "0" else "1");
    env.SetEnv(names[10], if public then "0" else "1");
    assert names[..5] + names[5..10] + [names[10]] == names;
    ZipAppend(names[..5] + names[5..10], v1 + v2, [names[10]], [if public then "0" else "1"]);
    assert Zip([names[10]], [if public then "0" else "1"]) == [(names[10], if public then "0" else "1")];
  }

  lemma SetAllNone(c: Content)
    ensures SetAll(c, []) == c
  {
  }

  lemma RoleValuesLength(net: Net, s: Spec, ollamaUrl: string)
    ensures |RoleValues(net, s, ollamaUrl)| == 5
  {
  }

  /** `write_inference_scale` */
  method WriteInferenceScale(env: File, net: Net, llm: Spec, emb: Spec, ollamaUrl: string) returns (public: bool)
    modifies env
    ensures env.content == Written(old(env.content), net, llm, emb, ollamaUrl)
    ensures public == !BothLocal(net, llm, emb, ollamaUrl)
  {
    hide SetAll, Values, BothLocal;
    public := WriteNames(env, NAMES, net, llm, emb, ollamaUrl);
  }

  // ---------- the flag is truthful ----------

  /** A position for each of NAMES, read off its length and one character. */
  function NameRank(s: string): nat {
    if |s| == 9 then 0
    else if |s| == 12 then (if s[4] == 'P' then 1 else 3)
    else if |s| == 14 then (if s[0] == 'O' then 2 else 5)
    else if |s| == 11 then 4
    else if |s| == 17 then (if s[9] == 'P' then 6 else 8)
    else if |s| == 16 then (if s[0] == 'O' then 7 else 9)
    else 10
  }

  lemma NameRanks()
    ensures forall i :: 0 <= i < |NAMES| ==> NameRank(NAMES[i]) == i
  {
  }

  lemma NamesAreKeys()
    ensures forall i :: 0 <= i < 5 ==> Key(NAMES[i])
  {
  }

  lemma EmbedderNamesAreKeys()
    ensures forall i :: 5 <= i < 8 ==> Key(NAMES[i])
  {
  }

  lemma LastNamesAreKeys()
    ensures forall i :: 8 <= i < |NAMES| ==> Key(NAMES[i])
  {
  }

  ghost predicate AllValuesOneLine(vs: seq<string>) { forall v :: v in vs ==> OneLine(v) }

  lemma NamesWritable(vs: seq<string>)
    requires |vs| == |NAMES| && AllValuesOneLine(vs)
    ensures Writable(Zip(NAMES, vs)) && DistinctKeys(Zip(NAMES, vs))
  {
    hide Key, OneLine, NameRank;
    NamesAreKeys();
    EmbedderNamesAreKeys();
    LastNamesAreKeys();
    NameRanks();
    var kvs := Zip(NAMES, vs);
    forall p | p in kvs ensures Key(p.0) && OneLine(p.1) {
      var i :| 0 <= i < |kvs| && kvs[i] == p;
      assert p == (NAMES[i], vs[i]) && vs[i] in vs;
    }
    forall i, j | 0 <= i < j < |kvs| ensures kvs[i].0 != kvs[j].0 {
      assert NameRank(kvs[i].0) == i && NameRank(kvs[j].0) == j;
    }
  }

  lemma {:induction false} AssignedAt(kvs: seq<Pair>, i: nat)
    requires DistinctKeys(kvs) && i < |kvs|
    ensures Assigned(kvs, kvs[i].0) == Some(kvs[i].1)
    decreases |kvs|
  {
    if i < |kvs| - 1 { AssignedAt(kvs[..|kvs| - 1], i); }
  }

  /** After the call every name reads the value written for it, unless it was shadowed. */
  lemma WrittenReads(c: Content, net: Net, llm: Spec, emb: Spec, ollamaUrl: string, i: nat)
    requires i < |NAMES| && AllValuesOneLine(Values(net, llm, emb, ollamaUrl))
    ensures ReadIn(Written(c, net, llm, emb, ollamaUrl), NAMES[i])
              == if Shadowed(Lines(c), NAMES[i]) then ReadIn(c, NAMES[i])
                 else Some(RStrip(Values(net, llm, emb, ollamaUrl)[i]))
  {
    hide Shadowed, ReadIn, SetAll, Key, OneLine, Lines, RStrip, Values, NAMES;
    var vs := Values(net, llm, emb, ollamaUrl);
    var kvs := Zip(NAMES, vs);
    NamesWritable(vs);
    AssignedAt(kvs, i);
    assert kvs[i] in kvs && kvs[i] == (NAMES[i], vs[i]);
    SetAllReads(c, kvs, NAMES[i]);
  }

  /** And all other keys read what they did. */
  lemma WrittenKeepsOthers(c: Content, net: Net, llm: Spec, emb: Spec, ollamaUrl: string, k: string)
    requires Key(k) && k !in NAMES && AllValuesOneLine(Values(net, llm, emb, ollamaUrl))
    ensures ReadIn(Written(c, net, llm, emb, ollamaUrl), k) == ReadIn(c, k)
  {
    hide Shadowed, ReadIn, SetAll, Key, OneLine, Lines, RStrip, Values, NAMES;
    var vs := Values(net, llm, emb, ollamaUrl);
    var kvs := Zip(NAMES, vs);
    NamesWritable(vs);
    forall p | p in kvs ensures p.0 != k {
      var i :| 0 <= i < |kvs| && kvs[i] == p;
      assert kvs[i] == (NAMES[i], vs[i]);
    }
    NotAssigned(kvs, k);
    SetAllReads(c, kvs, k);
  }

  lemma FlagValues()
    ensures RStrip("1") == "1" && RStrip("0") == "0" && "0" != "1"
  {
  }

  /** What MEM0_LOCAL_ONLY reads after the call: 1 iff both roles are local, unless a line
      that only `read_env` sees stands ahead of it; then it keeps what it read before. */
  lemma FlagReads(c: Content, net: Net, llm: Spec, emb: Spec, ollamaUrl: string)
    requires AllValuesOneLine(Values(net, llm, emb, ollamaUrl))
    ensures ReadIn(Written(c, net, llm, emb, ollamaUrl), NAMES[FLAG])
              == if Shadowed(Lines(c), NAMES[FLAG]) then ReadIn(c, NAMES[FLAG])
                 else Some(if BothLocal(net, llm, emb, ollamaUrl) then "1" else "0")
  {
    hide Shadowed, ReadIn, SetAll, Key, OneLine, Lines, NAMES, BothLocal, Written;
    WrittenReads(c, net, llm, emb, ollamaUrl, FLAG);
    FlagValues();
    RoleValuesLength(net, llm, ollamaUrl);
    RoleValuesLength(net, emb, ollamaUrl);
    assert Values(net, llm, emb, ollamaUrl)[FLAG] == if BothLocal(net, llm, emb, ollamaUrl) then "1" else "0";
  }

  /** The URL that inference of a role goes to. */
  lemma BaseIs(net: Net, s: Spec, ollamaUrl: string)
    ensures Base(net, s, ollamaUrl)
              == if s.provider == "openai" then RStripSlash(Or(s.baseUrl))
                 else net.fromContainer(if s.ollamaUrl.Some? && s.ollamaUrl.value != "" then s.ollamaUrl.value
                                        else ollamaUrl)
    ensures ApiKey(s) == if s.apiKey.Some? && s.apiKey.value != "" then s.apiKey.value
                         else if s.provider == "openai" then "sk-no-key" else ""
  {
  }

  lemma NamesAre()
    ensures |NAMES| == 11
    ensures NAMES[0] == "LLM_MODEL" && NAMES[1] == "LLM_PROVIDER" && NAMES[2] == "OLLAMA_LLM_URL"
    ensures NAMES[3] == "LLM_BASE_URL" && NAMES[4] == "LLM_API_KEY" && NAMES[5] == "EMBEDDER_MODEL"
    ensures NAMES[6] == "EMBEDDER_PROVIDER" && NAMES[7] == "OLLAMA_EMBED_URL" && NAMES[8] == "EMBEDDER_BASE_URL"
    ensures NAMES[9] == "EMBEDDER_API_KEY" && NAMES[10] == "MEM0_LOCAL_ONLY"
  {
  }

  lemma ValuesAre(net: Net, llm: Spec, emb: Spec, ollamaUrl: string)
    ensures var vs := Values(net, llm, emb, ollamaUrl);
            && vs[0] == llm.model && vs[1] == llm.provider && vs[4] == ApiKey(llm)
            && vs[2] == vs[3] == Base(net, llm, ollamaUrl)
            && vs[5] == emb.model && vs[6] == emb.provider && vs[9] == ApiKey(emb)
            && vs[7] == vs[8] == Base(net, emb, ollamaUrl)
  {
    hide Base, ApiKey, BothLocal, NAMES;
  }

  /** What each variable of a role reads afterwards, name by name, on a file that shadows none. */
  lemma RolesRead(c: Content, net: Net, llm: Spec, emb: Spec, ollamaUrl: string)
    requires AllValuesOneLine(Values(net, llm, emb, ollamaUrl))
    requires forall i :: 0 <= i < |NAMES| ==> !Shadowed(Lines(c), NAMES[i])
    ensures var after := Written(c, net, llm, emb, ollamaUrl);
            && ReadIn(after, "LLM_MODEL") == Some(RStrip(llm.model))
            && ReadIn(after, "LLM_PROVIDER") == Some(RStrip(llm.provider))
            && ReadIn(after, "LLM_BASE_URL") == ReadIn(after, "OLLAMA_LLM_URL")
                                             == Some(RStrip(Base(net, llm, ollamaUrl)))
            && ReadIn(after, "LLM_API_KEY") == Some(RStrip(ApiKey(llm)))
            && ReadIn(after, "EMBEDDER_MODEL") == Some(RStrip(emb.model))
            && ReadIn(after, "EMBEDDER_PROVIDER") == Some(RStrip(emb.provider))
            && ReadIn(after, "EMBEDDER_BASE_URL") == ReadIn(after, "OLLAMA_EMBED_URL")
                                                  == Some(RStrip(Base(net, emb, ollamaUrl)))
            && ReadIn(after, "EMBEDDER_API_KEY") == Some(RStrip(ApiKey(emb)))
  {
    hide Shadowed, ReadIn, Lines, RStrip, NAMES, Written, Base, ApiKey, Values, AllValuesOneLine;
    NamesAre();
    ValuesAre(net, llm, emb, ollamaUrl);
    forall i | 0 <= i < 10
      ensures ReadIn(Written(c, net, llm, emb, ollamaUrl), NAMES[i])
                == Some(RStrip(Values(net, llm, emb, ollamaUrl)[i]))
    {
      WrittenReads(c, net, llm, emb, ollamaUrl, i);
    }
  }

  /** The names of the base URLs and of the flag. */
  const READ_BACK: set<nat> := {2, 3, 7, 8, FLAG}

  /** No line that only `read_env` sees stands ahead of one of them. */
  ghost predicate Unshadowed(c: Content) {
    forall i :: i in READ_BACK ==> !Shadowed(Lines(c), NAMES[i])
  }

  lemma BaseReads(c: Content, net: Net, llm: Spec, emb: Spec, ollamaUrl: string)
    requires AllValuesOneLine(Values(net, llm, emb, ollamaUrl)) && Unshadowed(c)
    ensures var after := Written(c, net, llm, emb, ollamaUrl);
            && ReadIn(after, NAMES[3]) == ReadIn(after, NAMES[2]) == Some(RStrip(Base(net, llm, ollamaUrl)))
            && ReadIn(after, NAMES[8]) == ReadIn(after, NAMES[7]) == Some(RStrip(Base(net, emb, ollamaUrl)))
  {
    hide Shadowed, ReadIn, SetAll, Key, OneLine, Lines, RStrip, NAMES, BothLocal, Written, Base, ApiKey;
    WrittenReads(c, net, llm, emb, ollamaUrl, 2);
    WrittenReads(c, net, llm, emb, ollamaUrl, 3);
    WrittenReads(c, net, llm, emb, ollamaUrl, 7);
    WrittenReads(c, net, llm, emb, ollamaUrl, 8);
    var vs := Values(net, llm, emb, ollamaUrl);
    assert vs[2] == vs[3] == Base(net, llm, ollamaUrl) && vs[7] == vs[8] == Base(net, emb, ollamaUrl);
  }

  /** The fail-closed flag is truthful about the URLs in the file: it reads 1 iff both
      written base URLs are local, and each role's two URLs agree. */
  lemma FlagIsTruthful(c: Content, net: Net, llm: Spec, emb: Spec, ollamaUrl: string)
    requires AllValuesOneLine(Values(net, llm, emb, ollamaUrl)) && Unshadowed(c)
    requires RStrip(Base(net, llm, ollamaUrl)) == Base(net, llm, ollamaUrl)
    requires RStrip(Base(net, emb, ollamaUrl)) == Base(net, emb, ollamaUrl)
    ensures var after := Written(c, net, llm, emb, ollamaUrl);
            && ReadIn(after, NAMES[2]) == ReadIn(after, NAMES[3]) && ReadIn(after, NAMES[7]) == ReadIn(after, NAMES[8])
            && (ReadIn(after, NAMES[FLAG]) == Some("1")
                <==> HostIsLocal(net, Or(ReadIn(after, NAMES[3]))) && HostIsLocal(net, Or(ReadIn(after, NAMES[8]))))
  {
    hide Shadowed, ReadIn, SetAll, Key, OneLine, Lines, RStrip, NAMES, HostIsLocal, Written, Base, Values;
    NamesAre();
    assert !Shadowed(Lines(c), NAMES[FLAG]);
    FlagReads(c, net, llm, emb, ollamaUrl);
    BaseReads(c, net, llm, emb, ollamaUrl);
    FlagValues();
  }
}
