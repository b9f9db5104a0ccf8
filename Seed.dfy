/** The database seed: it ensures a system user for the first address of
    the admin allow-list, then upserts a fixed list of benchmarks (the first
    with two approved submissions), each looked up by the slug of its title
    so that the seed can be run again. */
module Seed {
  import opened Common
  import opened Store
  import opened Auth

  const DefaultAdminEmail := "admin@vibebench.ai"

  /** `ADMIN_EMAILS ? ADMIN_EMAILS.split(',')[0] : 'admin@vibebench.ai'`. */
  function AdminEmail(env: Option<string>): (r: string)
    ensures !Truthy(env) ==> r == DefaultAdminEmail
    ensures Truthy(env) ==> r == Split(env.value, ',')[0] && ',' !in r
  {
    if Truthy(env) then Split(env.value, ',')[0] else DefaultAdminEmail
  }

  /** The seeded e-mail is on the allow-list, unless the variable starts with
      a comma: then the seed uses the empty address. */
  lemma AdminEmailAllowed(env: Option<string>)
    requires Truthy(env)
    ensures AdminEmail(env) == "" || AdminEmail(env) in AllowList(env)
    ensures AdminEmail(env) == "" <==> env.value[0] == ','
  {
    var pieces := Split(env.value, ',');
    assert AdminEmail(env) in pieces;
    var s := env.value;
    assert s == [s[0]] + s[1..];
    var rest := Split(s[1..], ',');
    if s[0] == ',' {
      assert pieces == [""] + rest;
    } else {
      assert pieces == [[s[0]] + rest[0]] + rest[1..];
    }
  }

  // ---------------------------------------------------------------------
  // The system user

  /** `prisma.user.upsert({ where: { email }, update: {}, create })` on the
      user ids by e-mail: an existing user is returned untouched, otherwise
      one is created with the id `freshId`. */
  function UpsertUser(users: map<string, Id>, email: string, freshId: Id): (r: (map<string, Id>, Id))
    ensures email in r.0 && r.0[email] == r.1
    ensures email in users ==> r == (users, users[email])
    ensures email !in users ==> r.0 == users[email := freshId]
  {
    if email in users then (users, users[email]) else (users[email := freshId], freshId)
  }

  /** A second run finds the user the first run ensured. */
  lemma UpsertUserIdempotent(users: map<string, Id>, email: string, id1: Id, id2: Id)
    ensures var (u1, a1) := UpsertUser(users, email, id1);
      UpsertUser(u1, email, id2) == (u1, a1)
  {
  }

  // ---------------------------------------------------------------------
  // Slugs

  /** ASCII lower-casing of one character. */
  function LowerChar(c: char): (r: char)
    ensures 'A' <= c <= 'Z' ==> r as int == c as int + 32
    ensures !('A' <= c <= 'Z') ==> r == c
    ensures !('A' <= r <= 'Z')
  {
    if 'A' <= c <= 'Z' then (c as int + 32) as char else c
  }

  /** `toLowerCase()`, for ASCII letters. */
  function Lower(s: string): (r: string)
    ensures |r| == |s| && forall i | 0 <= i < |s| :: r[i] == LowerChar(s[i])
  {
    seq(|s|, i requires 0 <= i < |s| => LowerChar(s[i]))
  }

  /** `replace(/\s+/g, '-')`: every maximal run of whitespace becomes one
      hyphen. */
  function Hyphenate(s: string): (r: string)
    ensures NoSpace(r)
    ensures |r| <= |s|
    decreases |s|
  {
    if s == [] then []
    else if IsSpace(s[0]) then
      var rest := TrimStart(s);
      assert |rest| < |s|;
      "-" + Hyphenate(rest)
    else [s[0]] + Hyphenate(s[1..])
  }

  /** Hyphenating introduces no character but the hyphen. */
  lemma {:induction false} HyphenateChars(s: string)
    ensures forall c | c in Hyphenate(s) :: c == '-' || c in s
    decreases |s|
  {
    if s != [] {
      if IsSpace(s[0]) {
        var rest := TrimStart(s);
        HyphenateChars(rest);
        assert forall c | c in rest :: c in s;
      } else {
        HyphenateChars(s[1..]);
      }
    }
  }

  /** A string without whitespace has nothing to replace. */
  lemma {:induction false} HyphenateNoSpace(s: string)
    requires NoSpace(s)
    ensures Hyphenate(s) == s
    decreases |s|
  {
    if s != [] {
      HyphenateNoSpace(s[1..]);
    }
  }

  /** `title.toLowerCase().replace(/\s+/g, '-')`. */
  function Slug(title: string): (r: string)
    ensures NoSpace(r) && |r| <= |title|
    ensures forall c | c in r :: !('A' <= c <= 'Z')
  {
    HyphenateChars(Lower(title));
    Hyphenate(Lower(title))
  }

  /** A slug is its own slug. */
  lemma SlugIdempotent(title: string)
    ensures Slug(Slug(title)) == Slug(title)
  {
    var s := Slug(title);
    forall i | 0 <= i < |s| ensures Lower(s)[i] == s[i] {
      assert s[i] in s;
    }
    assert Lower(s) == s;
    HyphenateNoSpace(s);
  }

  /** Two titles that differ only in how their words are separated by
      whitespace get the same slug: `"Legacy  PHP"` and `"Legacy PHP"`. */
  lemma SlugMergesRuns(a: string, b: string)
    requires a != [] && b != [] && !IsSpace(a[|a| - 1]) && !IsSpace(b[0])
    ensures Slug(a + "  " + b) == Slug(a + " " + b)
  {
    var la, lb := Lower(a), Lower(b);
    assert Lower(a + "  " + b) == la + "  " + lb;
    assert Lower(a + " " + b) == la + " " + lb;
    assert !IsSpace(la[|la| - 1]) && !IsSpace(lb[0]);
    HyphenateSplit(la, "  ", lb);
    HyphenateSplit(la, " ", lb);
  }

  /** Hyphenating a word, a run of whitespace and a word. */
  lemma {:induction false} HyphenateSplit(a: string, gap: string, b: string)
    requires a == [] || !IsSpace(a[|a| - 1])
    requires gap != [] && AllSpace(gap) && (b == [] || !IsSpace(b[0]))
    ensures Hyphenate(a + gap + b) == Hyphenate(a) + "-" + Hyphenate(b)
    decreases |a|, 1
  {
    if a == [] {
      assert a + gap + b == gap + b;
      HyphenateRun(gap + b);
      TrimStartRun(gap, b);
    } else if IsSpace(a[0]) {
      HyphenateSplitSpace(a, gap, b);
    } else {
      var tail := a[1..];
      assert a == [a[0]] + tail;
      Regroup([a[0]], tail, gap, b);
      HyphenateCons(a[0], tail + gap + b);
      HyphenateCons(a[0], tail);
      HyphenateSplit(tail, gap, b);
      Regroup([a[0]], Hyphenate(tail), "-", Hyphenate(b));
    }
  }

  /** The case of `HyphenateSplit` where the first word starts with
      whitespace. */
  lemma {:induction false} HyphenateSplitSpace(a: string, gap: string, b: string)
    requires a != [] && IsSpace(a[0]) && !IsSpace(a[|a| - 1])
    requires gap != [] && AllSpace(gap) && (b == [] || !IsSpace(b[0]))
    ensures Hyphenate(a + gap + b) == Hyphenate(a) + "-" + Hyphenate(b)
    decreases |a|, 0
  {
    var rest := TrimStart(a);
    TrimStartKeepsLast(a);
    var gb := gap + b;
    LeadingRun(a, gb);
    HyphenateRun(a);
    HyphenateSplit(rest, gap, b);
    var hr, hb := Hyphenate(rest), Hyphenate(b);
    Assoc(a, gap, b);
    Assoc(rest, gap, b);
    assert Hyphenate(a + gap + b) == "-" + (hr + "-" + hb);
    Regroup("-", hr, "-", hb);
  }

  /** A leading whitespace run becomes one hyphen before the rest. */
  lemma LeadingRun(a: string, c: string)
    requires a != [] && IsSpace(a[0]) && TrimStart(a) != []
    ensures Hyphenate(a + c) == "-" + Hyphenate(TrimStart(a) + c)
  {
    TrimStartAppend(a, c);
    assert (a + c)[0] == a[0];
    HyphenateRun(a + c);
  }

  lemma Assoc(x: string, y: string, z: string)
    ensures x + y + z == x + (y + z)
  {
  }

  lemma Regroup(w: string, x: string, y: string, z: string)
    ensures w + (x + y + z) == (w + x) + y + z
  {
  }

  lemma TrimStartKeepsLast(a: string)
    requires a != [] && IsSpace(a[0]) && !IsSpace(a[|a| - 1])
    ensures var r := TrimStart(a); r != [] && r[|r| - 1] == a[|a| - 1] && |r| < |a|
  {
  }

  lemma HyphenateCons(c: char, s: string)
    requires !IsSpace(c)
    ensures Hyphenate([c] + s) == [c] + Hyphenate(s)
  {
    assert ([c] + s)[1..] == s;
  }

  lemma HyphenateRun(s: string)
    requires s != [] && IsSpace(s[0])
    ensures Hyphenate(s) == "-" + Hyphenate(TrimStart(s))
  {
  }

  lemma {:induction false} TrimStartRun(gap: string, b: string)
    requires AllSpace(gap) && (b == [] || !IsSpace(b[0]))
    ensures TrimStart(gap + b) == b
    decreases |gap|
  {
    if gap == [] {
      assert gap + b == b;
    } else {
      assert (gap + b)[0] == gap[0];
      assert (gap + b)[1..] == gap[1..] + b;
      TrimStartRun(gap[1..], b);
    }
  }

  lemma {:induction false} TrimStartAppend(a: string, c: string)
    requires TrimStart(a) != []
    ensures TrimStart(a + c) == TrimStart(a) + c
    decreases |a|
  {
    assert (a + c)[0] == a[0];
    if IsSpace(a[0]) {
      assert (a + c)[1..] == a[1..] + c;
      TrimStartAppend(a[1..], c);
    }
  }

  // ---------------------------------------------------------------------
  // Benchmarks

  /** A nested submission of the seed data. */
  datatype SeedSubmission = SeedSubmission(
    baseModel: string, codingTool: string, repoUrl: string, status: Status, authorName: string)

  /** A benchmark of the seed data, with its nested submissions. */
  datatype SeedBenchmark = SeedBenchmark(
    title: string, description: string, isActive: bool, submissions: seq<SeedSubmission>)

  const SeedBenchmarks: seq<SeedBenchmark> := [
    SeedBenchmark("Python Data Analysis Agent",
      "Build a Python agent capable of loading a CSV, cleaning data, and generating matplotlib visualizations based on natural language queries.",
      true,
      [SeedSubmission("gpt-4-turbo", "cursor", "https://github.com/example/python-agent", APPROVED, "DevOne"),
       SeedSubmission("claude-3.5-sonnet", "windsurf", "https://github.com/example/sonnet-agent", APPROVED, "DevTwo")]),
    SeedBenchmark("React Dashboard Component",
      "Generate a responsive dashboard component using Tailwind CSS, including a sidebar, header, and data charts (Recharts). Must be fully typed.",
      true, []),
    SeedBenchmark("Golang REST API Service",
      "Implement a high-performance REST API in Go using Gin or Chi. Requirements: JWT Auth, PostgreSQL integration, and >80% test coverage.",
      true, []),
    SeedBenchmark("Legacy PHP Migration",
      "Refactor a legacy PHP 5.6 script to modern PHP 8.2, maintaining functionality while fixing security vulnerabilities.",
      false, []),
    SeedBenchmark("Prompt Engineering Challenge",
      "Optimize a system prompt to make a local Llama 3 model output valid JSON consistently for complex reasoning tasks.",
      true, [])
  ]

  /** The benchmark row created for `data`, owned by the system user. */
  function NewBenchmark(data: SeedBenchmark, id: Id, adminId: Id, now: int): (r: Benchmark)
    ensures r.id == id && r.title == data.title && r.isActive == data.isActive && r.createdById == adminId
  {
    Benchmark(id, data.title, Some(data.description), None, None, None, data.isActive, adminId, now)
  }

  /** The nested submission rows, with the ids the store generates for them:
      owned by the system user, with no likes. */
  function NewSubmissions(subs: seq<SeedSubmission>, ids: seq<Id>, benchmarkId: Id, adminId: Id, now: int)
    : (r: map<Id, Submission>)
    requires |ids| == |subs|
    ensures forall id :: id in r <==> id in ids
    ensures forall id | id in r :: r[id].id == id && r[id].benchmarkId == benchmarkId && r[id].likeCount == 0
  {
    if subs == [] then map[]
    else
      var s := subs[0];
      var row := Submission(ids[0], benchmarkId, adminId, s.status, s.repoUrl, s.baseModel, s.codingTool,
                            [], Some(s.authorName), None, None, None, [], 0, now);
      var rest := NewSubmissions(subs[1..], ids[1..], benchmarkId, adminId, now);
      assert ids == [ids[0]] + ids[1..];
      rest[ids[0] := row]
  }

  /** Inserting `data` with its nested submissions under benchmark id `id`. */
  function Insert(t: Tables, data: SeedBenchmark, id: Id, subIds: seq<Id>, adminId: Id, now: int): (r: Tables)
    requires |subIds| == |data.submissions|
    ensures r.likes == t.likes
    ensures r.benchmarks == t.benchmarks[id := NewBenchmark(data, id, adminId, now)]
    ensures r.submissions == t.submissions + NewSubmissions(data.submissions, subIds, id, adminId, now)
    ensures forall s :: s in r.submissions <==> s in t.submissions || s in subIds
    ensures forall s | s in r.submissions && s in subIds :: r.submissions[s].benchmarkId == id
    ensures forall s | s in t.submissions && s !in subIds :: r.submissions[s] == t.submissions[s]
  {
    t.(benchmarks := t.benchmarks[id := NewBenchmark(data, id, adminId, now)],
       submissions := t.submissions + NewSubmissions(data.submissions, subIds, id, adminId, now))
  }

  /** One upsert AS WRITTEN: it looks the benchmark up by the slug of its
      title, but the row it creates carries no id, so the store gives it the
      generated id `freshId` and the slug is never stored. */
  function UpsertAsWritten(t: Tables, data: SeedBenchmark, freshId: Id, subIds: seq<Id>, adminId: Id, now: int)
    : (r: Tables)
    requires |subIds| == |data.submissions|
    ensures Slug(data.title) in t.benchmarks ==> r == t
    ensures Slug(data.title) !in t.benchmarks ==> r == Insert(t, data, freshId, subIds, adminId, now)
  {
    if Slug(data.title) in t.benchmarks then t else Insert(t, data, freshId, subIds, adminId, now)
  }

  /** The ids of the benchmark rows titled `title`. */
  function RowsTitled(t: Tables, title: string): set<Id> {
    set id | id in t.benchmarks && t.benchmarks[id].title == title
  }

  /** Running the seed again duplicates the benchmark: with generated ids,
      which are never slugs, the lookup misses on both runs and the second
      run inserts a second row with the same title (and, for the first
      benchmark, two more submissions). */
  lemma {:induction false} RerunDuplicates(t: Tables, data: SeedBenchmark, id1: Id, id2: Id,
                                           subIds1: seq<Id>, subIds2: seq<Id>, adminId: Id, now: int)
    requires |subIds1| == |subIds2| == |data.submissions|
    requires Slug(data.title) !in t.benchmarks
    requires id1 != Slug(data.title) && id2 != Slug(data.title) && id1 != id2
    ensures var t1 := UpsertAsWritten(t, data, id1, subIds1, adminId, now);
      var t2 := UpsertAsWritten(t1, data, id2, subIds2, adminId, now);
      {id1, id2} <= RowsTitled(t2, data.title)
  {
    var t1 := UpsertAsWritten(t, data, id1, subIds1, adminId, now);
    assert Slug(data.title) !in t1.benchmarks;
  }

  /** The concrete case: from an empty table, two runs with generated ids
      leave two rows titled "Legacy PHP Migration". */
  lemma RerunDuplicatesLegacy(t: Tables, adminId: Id, now: int)
    requires t.benchmarks == map[]
    ensures var data := SeedBenchmarks[3];
      var t1 := UpsertAsWritten(t, data, "cm0001", [], adminId, now);
      var t2 := UpsertAsWritten(t1, data, "cm0002", [], adminId, now);
      RowsTitled(t2, "Legacy PHP Migration") == {"cm0001", "cm0002"}
  {
    var data := SeedBenchmarks[3];
    assert data.title == "Legacy PHP Migration" && data.submissions == [];
    LegacySlugHead();
    RerunDuplicates(t, data, "cm0001", "cm0002", [], [], adminId, now);
  }

  lemma LegacySlugHead()
    ensures Slug("Legacy PHP Migration")[0] == 'l'
  {
    var lower := Lower("Legacy PHP Migration");
    assert lower[0] == 'l';
    assert Hyphenate(lower) == [lower[0]] + Hyphenate(lower[1..]);
  }

  /** One upsert as intended: the row is created under the slug it is
      looked up by. */
  function Upsert(t: Tables, data: SeedBenchmark, subIds: seq<Id>, adminId: Id, now: int): (r: Tables)
    requires |subIds| == |data.submissions|
    ensures Slug(data.title) in r.benchmarks
    ensures Slug(data.title) in t.benchmarks ==> r == t
    ensures Slug(data.title) !in t.benchmarks ==> r == Insert(t, data, Slug(data.title), subIds, adminId, now)
  {
    if Slug(data.title) in t.benchmarks then t else Insert(t, data, Slug(data.title), subIds, adminId, now)
  }

  /** The intended upsert is idempotent: a second run changes nothing,
      whatever ids the store would generate on it. */
  lemma UpsertIdempotent(t: Tables, data: SeedBenchmark, subIds1: seq<Id>, subIds2: seq<Id>, adminId: Id, now1: int, now2: int)
    requires |subIds1| == |subIds2| == |data.submissions|
    ensures var t1 := Upsert(t, data, subIds1, adminId, now1);
      Upsert(t1, data, subIds2, adminId, now2) == t1
  {
  }

  /** The intended upsert keeps the store well formed when the generated
      submission ids are new. */
  lemma UpsertPreservesWellFormed(t: Tables, data: SeedBenchmark, subIds: seq<Id>, adminId: Id, now: int)
    requires WellFormed(t) && |subIds| == |data.submissions|
    requires forall i | 0 <= i < |subIds| :: subIds[i] !in t.submissions
    ensures WellFormed(Upsert(t, data, subIds, adminId, now))
  {
    var slug := Slug(data.title);
    if slug !in t.benchmarks {
      var t' := Upsert(t, data, subIds, adminId, now);
      var added := NewSubmissions(data.submissions, subIds, slug, adminId, now);
      forall id | id in t'.submissions ensures t'.submissions[id].likeCount == |Likers(t'.likes, id)| {
        if id in added {
          assert id !in t.submissions;
          assert Likers(t.likes, id) == {};
        }
      }
    }
  }

  /** The benchmark loop, as intended: the upserts in list order, the
      `i`-th one with the generated ids `subIds[i]`. */
  function SeedAll(t: Tables, data: seq<SeedBenchmark>, subIds: seq<seq<Id>>, adminId: Id, now: int): (r: Tables)
    requires |subIds| == |data| && forall i | 0 <= i < |data| :: |subIds[i]| == |data[i].submissions|
    ensures forall i | 0 <= i < |data| :: Slug(data[i].title) in r.benchmarks
    ensures t.benchmarks.Keys <= r.benchmarks.Keys
    decreases |data|
  {
    if data == [] then t
    else
      var r := SeedAll(Upsert(t, data[0], subIds[0], adminId, now), data[1..], subIds[1..], adminId, now);
      assert forall i | 1 <= i < |data| :: data[i] == data[1..][i - 1];
      r
  }

  /** Running the whole intended loop a second time changes nothing. */
  lemma {:induction false} SeedAllIdempotent(t: Tables, data: seq<SeedBenchmark>, subIds1: seq<seq<Id>>,
                                             subIds2: seq<seq<Id>>, adminId: Id, now1: int, now2: int)
    requires |subIds1| == |data| && forall i | 0 <= i < |data| :: |subIds1[i]| == |data[i].submissions|
    requires |subIds2| == |data| && forall i | 0 <= i < |data| :: |subIds2[i]| == |data[i].submissions|
    ensures var t1 := SeedAll(t, data, subIds1, adminId, now1);
      SeedAll(t1, data, subIds2, adminId, now2) == t1
  {
    var t1 := SeedAll(t, data, subIds1, adminId, now1);
    AllPresentNoOp(t1, data, subIds2, adminId, now2);
  }

  /** When every slug is already stored the loop is a no-op. */
  lemma {:induction false} AllPresentNoOp(t: Tables, data: seq<SeedBenchmark>, subIds: seq<seq<Id>>, adminId: Id, now: int)
    requires |subIds| == |data| && forall i | 0 <= i < |data| :: |subIds[i]| == |data[i].submissions|
    requires forall i | 0 <= i < |data| :: Slug(data[i].title) in t.benchmarks
    ensures SeedAll(t, data, subIds, adminId, now) == t
    decreases |data|
  {
    if data != [] {
      assert Upsert(t, data[0], subIds[0], adminId, now) == t;
      assert forall i | 0 <= i < |data[1..]| :: data[1..][i] == data[i + 1];
      AllPresentNoOp(t, data[1..], subIds[1..], adminId, now);
    }
  }
}
