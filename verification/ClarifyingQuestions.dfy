/** One clarifying question for each path: `generateClarifyingQuestions` of
    src/modules/contracts/clarifying-questions.ts. */
module ClarifyingQuestions {
  import opened Abstention
  import opened ExtractionPaths
  import opened Sorting
  import opened Sums
  import opened Texts

  datatype Question = Question(path: Text, status: Status, reason: Reason, question: Text, questionHash: Text)

  datatype Outcome = Questions(questions: seq<Question>) | Refused | Conflicting

  predicate Acceptable(n: Notice) { 0 < |n.path| <= 1000 && 0 < |n.question| <= 2000 }

  predicate Admitted(notices: seq<Notice>, version: Text) {
    |notices| <= 30000 && 0 < |version| <= 200 && forall n | n in notices :: Acceptable(n)
  }

  /** `hash` is SHA-256 over the version and the parts of the notice. */
  function Ask(hash: (Text, Notice) -> Text, version: Text, n: Notice): Question {
    Question(n.path, n.status, n.reason, n.question, hash(version, n))
  }

  /** Two notices that differ share a path. */
  predicate Conflict(notices: seq<Notice>) {
    exists i, j | 0 <= i < j < |notices| :: notices[i].path == notices[j].path && notices[i] != notices[j]
  }

  function QuestionPath(): Question -> Text { (q: Question) => q.path }

  ghost predicate AskedFrom(hash: (Text, Notice) -> Text, version: Text, notices: seq<Notice>, q: Question) {
    exists n :: n in notices && q == Ask(hash, version, n)
  }

  /** After `i` notices: each path met is kept once, with the question of every notice that has it. */
  ghost predicate Kept(hash: (Text, Notice) -> Text, version: Text, notices: seq<Notice>, i: nat, byPath: map<Text,
                       Question>, inserted: seq<Text>) {
    && i <= |notices|
    && (forall p :: p in byPath <==> p in inserted)
    && (forall k, l | 0 <= k < l < |inserted| :: inserted[k] != inserted[l])
    && (forall k | 0 <= k < i :: notices[k].path in byPath && byPath[notices[k].path] == Ask(hash, version, notices[k]))
    && forall p | p in byPath :: byPath[p].path == p && exists k | 0 <= k < i ::
        byPath[p] == Ask(hash, version, notices[k])
  }

  lemma KeptNone(hash: (Text, Notice) -> Text, version: Text, notices: seq<Notice>)
    ensures Kept(hash, version, notices, 0, map[], [])
  {
  }

  lemma KeptClash(hash: (Text, Notice) -> Text, version: Text, notices: seq<Notice>, i: nat,
                  byPath: map<Text, Question>, inserted: seq<Text>)
    requires Kept(hash, version, notices, i, byPath, inserted) && i < |notices|
    requires var q := Ask(hash, version, notices[i]); q.path in byPath && byPath[q.path] != q
    ensures Conflict(notices)
  {
    var q := Ask(hash, version, notices[i]);
    var k :| 0 <= k < i && byPath[q.path] == Ask(hash, version, notices[k]);
    assert notices[k].path == notices[i].path && notices[k] != notices[i];
  }

  lemma KeptAgain(hash: (Text, Notice) -> Text, version: Text, notices: seq<Notice>, i: nat,
                  byPath: map<Text, Question>, inserted: seq<Text>)
    requires Kept(hash, version, notices, i, byPath, inserted) && i < |notices|
    requires var q := Ask(hash, version, notices[i]); q.path in byPath && byPath[q.path] == q
    ensures Kept(hash, version, notices, i + 1, byPath, inserted)
  {
    forall p | p in byPath ensures exists k | 0 <= k < i + 1 :: byPath[p] == Ask(hash, version, notices[k]) {
      var k :| 0 <= k < i && byPath[p] == Ask(hash, version, notices[k]);
    }
  }

  lemma KeptNew(hash: (Text, Notice) -> Text, version: Text, notices: seq<Notice>, i: nat,
                byPath: map<Text, Question>, inserted: seq<Text>)
    requires Kept(hash, version, notices, i, byPath, inserted) && i < |notices| && notices[i].path !in byPath
    ensures var q := Ask(hash, version, notices[i]);
            Kept(hash, version, notices, i + 1, byPath[q.path := q], inserted + [q.path])
  {
    var q := Ask(hash, version, notices[i]);
    var after := byPath[q.path := q];
    forall p | p in after ensures exists k | 0 <= k < i + 1 :: after[p] == Ask(hash, version, notices[k]) {
      if p == q.path { assert after[p] == Ask(hash, version, notices[i]); } else {
        var k :| 0 <= k < i && byPath[p] == Ask(hash, version, notices[k]);
      }
    }
  }

  lemma KeptStep(hash: (Text, Notice) -> Text, version: Text, notices: seq<Notice>, i: nat,
                 byPath: map<Text, Question>, inserted: seq<Text>)
    requires Kept(hash, version, notices, i, byPath, inserted) && i < |notices|
    ensures var q := Ask(hash, version, notices[i]);
            if q.path in byPath && byPath[q.path] != q then Conflict(notices)
            else Kept(hash, version, notices, i + 1, byPath[q.path := q],
                      if q.path in byPath then inserted else inserted + [q.path])
  {
    var q := Ask(hash, version, notices[i]);
    hide Kept;
    hide Conflict;
    if q.path !in byPath {
      KeptNew(hash, version, notices, i, byPath, inserted);
    } else if byPath[q.path] == q {
      KeptAgain(hash, version, notices, i, byPath, inserted);
      assert byPath[q.path := q] == byPath;
    } else {
      KeptClash(hash, version, notices, i, byPath, inserted);
    }
  }

  function Values(byPath: map<Text, Question>, inserted: seq<Text>): seq<Question>
    requires forall p :: p in byPath <==> p in inserted
  {
    seq(|inserted|, i requires 0 <= i < |inserted| => assert inserted[i] in inserted; byPath[inserted[i]])
  }

  lemma KeptAnswers(hash: (Text, Notice) -> Text, version: Text, notices: seq<Notice>, byPath: map<Text, Question>,
                    inserted: seq<Text>, q: Question)
    requires Kept(hash, version, notices, |notices|, byPath, inserted)
    ensures q in Values(byPath, inserted) <==> AskedFrom(hash, version, notices, q)
  {
    var asked := Values(byPath, inserted);
    if n :| n in notices && q == Ask(hash, version, n) {
      var k :| 0 <= k < |notices| && notices[k] == n;
      var i :| 0 <= i < |inserted| && inserted[i] == n.path;
      assert asked[i] == q;
    }
    if q in asked {
      var i :| 0 <= i < |asked| && asked[i] == q;
      assert inserted[i] in byPath;
      var k :| 0 <= k < |notices| && byPath[inserted[i]] == Ask(hash, version, notices[k]);
      assert notices[k] in notices;
    }
  }

  lemma KeptApart(hash: (Text, Notice) -> Text, version: Text, notices: seq<Notice>, byPath: map<Text, Question>,
                  inserted: seq<Text>)
    requires Kept(hash, version, notices, |notices|, byPath, inserted)
    ensures DistinctTexts(Values(byPath, inserted), QuestionPath())
  {
    var asked := Values(byPath, inserted);
    forall i | 0 <= i < |asked| ensures asked[i].path == inserted[i] { assert inserted[i] in byPath; }
  }

  lemma KeptAll(hash: (Text, Notice) -> Text, version: Text, notices: seq<Notice>, byPath: map<Text, Question>,
                inserted: seq<Text>)
    requires Kept(hash, version, notices, |notices|, byPath, inserted)
    ensures !Conflict(notices) && DistinctTexts(Values(byPath, inserted), QuestionPath())
    ensures forall q :: q in Values(byPath, inserted) <==> AskedFrom(hash, version, notices, q)
  {
    forall q ensures q in Values(byPath, inserted) <==> AskedFrom(hash, version, notices, q) {
      KeptAnswers(hash, version, notices, byPath, inserted, q);
    }
    KeptApart(hash, version, notices, byPath, inserted);
    hide Values;
    hide AskedFrom;
  }

  lemma SortedAnswer(pathOrder: (Text, Text) -> bool, asked: seq<Question>)
    requires DistinctTexts(asked, QuestionPath())
    ensures var r := SortBy(By(pathOrder, QuestionPath()), asked);
            && DistinctTexts(r, QuestionPath()) && (forall q :: q in r <==> q in asked)
            && (TotalOrder(pathOrder) ==> SortedBy(By(pathOrder, QuestionPath()), r))
  {
    SortKeepsMembers(By(pathOrder, QuestionPath()), asked);
    SortingKeepsApart(By(pathOrder, QuestionPath()), asked, QuestionPath());
    if TotalOrder(pathOrder) {
      ByIsTotalPreorder(pathOrder, QuestionPath());
      SortSorts(By(pathOrder, QuestionPath()), asked);
    }
  }

  method CheckNotices(notices: seq<Notice>, version: Text) returns (ok: bool)
    ensures ok <==> Admitted(notices, version)
  {
    ok := |notices| <= 30000 && 0 < |version| <= 200 && forall n :: n in notices ==> Acceptable(n);
  }

  /** Conflicting notices are reported; otherwise there is one question for each path, in order of paths. A JavaScript
      map remembers the order of insertion, here `inserted`. */
  method GenerateClarifyingQuestions(hash: (Text, Notice) -> Text, pathOrder: (Text, Text) -> bool,
                                     notices: seq<Notice>, version: Text) returns (r: Outcome)
    ensures r.Refused? <==> !Admitted(notices, version)
    ensures r.Conflicting? <==> Admitted(notices, version) && Conflict(notices)
    ensures r.Questions? ==> DistinctTexts(r.questions, QuestionPath()) && forall q ::
        q in r.questions <==> AskedFrom(hash, version, notices, q)
    ensures r.Questions? && TotalOrder(pathOrder) ==> SortedBy(By(pathOrder, QuestionPath()), r.questions)
  {
    hide *;
    var ok := CheckNotices(notices, version);
    if !ok { return Refused; }
    var byPath: map<Text, Question> := map[];
    var inserted: seq<Text> := [];
    KeptNone(hash, version, notices);
    for i := 0 to |notices|
      invariant Kept(hash, version, notices, i, byPath, inserted)
    {
      var question := Ask(hash, version, notices[i]);
      KeptStep(hash, version, notices, i, byPath, inserted);
      if question.path in byPath && byPath[question.path] != question { return Conflicting; }
      if question.path !in byPath { inserted := inserted + [question.path]; }
      byPath := byPath[question.path := question];
    }
    KeptAll(hash, version, notices, byPath, inserted);
    KeptKeys(hash, version, notices, byPath, inserted);
    var asked := Values(byPath, inserted);
    SortedAnswer(pathOrder, asked);
    r := Questions(SortBy(By(pathOrder, QuestionPath()), asked));
  }

  lemma KeptKeys(hash: (Text, Notice) -> Text, version: Text, notices: seq<Notice>, byPath: map<Text, Question>,
                 inserted: seq<Text>)
    requires Kept(hash, version, notices, |notices|, byPath, inserted)
    ensures forall p :: p in byPath <==> p in inserted
  {
  }

  lemma ByIsTotalPreorder(leq: (Text, Text) -> bool, f: Question -> Text)
    requires TotalPreorder(leq)
    ensures TotalPreorder(By(leq, f))
  {
    var r := By(leq, f);
    forall a, b ensures r(a, b) || r(b, a) { assert leq(f(a), f(b)) || leq(f(b), f(a)); }
    forall a, b, c | r(a, b) && r(b, c) ensures r(a, c) { assert leq(f(a), f(b)) && leq(f(b), f(c)); }
  }

  // ---- questions from abstention -------------------------------------------------------------

  predicate Presentable(e: Entry) {
    PathOf(e.place) != [] && if e.value.Some? then GoodQuestion(e.value.value)
        else e.place.OrientationAt? && |e.place.key| <= 300
  }

  lemma TablePresentable(t: Table)
    requires SoundTable(t) && QuestionsShape(t)
    ensures forall e | e in TableEntries(t) :: Presentable(e)
  {
    var cells := CellEntries(t.key, t.cells);
    forall e | e in cells ensures Presentable(e) {
      var i :| 0 <= i < |cells| && cells[i] == e;
      assert t.cells[i] in t.cells;
    }
  }

  lemma {:induction false} TablesPresentable(tables: seq<Table>)
    requires forall t | t in tables :: SoundTable(t) && QuestionsShape(t)
    ensures forall e | e in TablesEntries(tables) :: Presentable(e)
    decreases |tables|
  {
    if tables != [] {
      var n := |tables| - 1;
      TablesPresentable(tables[..n]);
      TablePresentable(tables[n]);
      hide SoundTable;
      hide TableEntries;
      hide Presentable;
    }
  }

  lemma EntriesPresentable(fold: Text -> Text, x: Extraction)
    requires Valid(fold, x)
    ensures forall e | e in Entries(x) :: Presentable(e)
  {
    TablesPresentable(x.tables);
    var fields, clauses := FieldEntries(x.fields), ClauseEntries(x.clauses);
    forall e | e in fields ensures Presentable(e) {
      var i :| 0 <= i < |fields| && fields[i] == e;
      assert FieldShape(x.fields[i]);
    }
    forall e | e in clauses ensures Presentable(e) {
      var i :| 0 <= i < |clauses| && clauses[i] == e;
      assert ClauseShape(x.clauses[i]);
    }
    hide Presentable;
    hide TablesEntries;
  }

  /** On the output of abstention no conflict is ever raised; the questions are refused only for their number or for a
      path longer than the question schema allows. */
  lemma QuestionsFollowAbstention(fold: Text -> Text, pathOrder: (Text, Text) -> bool, policy: Policy, x: Extraction)
    requires Accepts(fold, pathOrder, policy, x)
    ensures var notices := Notices(pathOrder, policy, x);
            && !Conflict(notices)
            && (Admitted(notices, policy.version) <==> |notices| <= 30000 && forall n | n in notices ::
                |n.path| <= 1000)
  {
    var notices := Notices(pathOrder, policy, x);
    NoticePathsDistinct(fold, pathOrder, policy, x);
    NoticesPresentable(fold, pathOrder, policy, x);
    VersionIsStated(policy);
    hide Notices;
    hide Accepts;
    forall i, j | 0 <= i < j < |notices| ensures notices[i].path != notices[j].path {
      assert NoticePath()(notices[i]) != NoticePath()(notices[j]);
    }
  }

  lemma NoticesPresentable(fold: Text -> Text, pathOrder: (Text, Text) -> bool, policy: Policy, x: Extraction)
    requires Valid(fold, AppliedExtraction(pathOrder, policy, x))
    ensures forall n | n in Notices(pathOrder, policy, x) :: n.path != [] && 0 < |n.question| <= 2000
  {
    hide *;
    var after := AppliedExtraction(pathOrder, policy, x);
    AbstentionTellsEverything(pathOrder, policy, x);
    EntriesPresentable(fold, after);
    forall n | n in Notices(pathOrder, policy, x) ensures n.path != [] && 0 < |n.question| <= 2000 {
      var e :| e in Entries(after) && !WellGrounded(policy, e) && Tells(n, e);
      TellsPresentable(n, e);
    }
  }

  lemma TellsPresentable(n: Notice, e: Entry)
    requires Tells(n, e) && Presentable(e)
    ensures n.path != [] && 0 < |n.question| <= 2000
  {
    hide PathOf;
  }

  lemma VersionIsStated(policy: Policy)
    requires ValidPolicy(policy)
    ensures 0 < |policy.version| <= 200
  {
  }

  /** A question is asked exactly if some notice asks it: path, status, reason and text are those of the notice, and the
      hash is over the version and the notice. */
  lemma QuestionsSay(hash: (Text, Notice) -> Text, version: Text, notices: seq<Notice>, q: Question)
    ensures AskedFrom(hash, version, notices, q)
        <==> exists n :: n in notices && q.path == n.path && q.status == n.status && q.reason == n.reason
                         && q.question == n.question && q.questionHash == hash(version, n)
  {
    forall n | n in notices
      ensures q == Ask(hash, version, n)
          <==> q.path == n.path && q.status == n.status && q.reason == n.reason && q.question == n.question
               && q.questionHash == hash(version, n)
    {
    }
  }
}
