/** The conversation manager: long-term memory derived from the message log
    (topics, emotional tone, themes, summary), the preview shown before a
    reset, the memory rendered as prompt text, and the two "new
    conversation" actions. */
module Conversation {
  import opened Base
  import opened Text

  // ---------------------------------------------------------------------
  // Topics
  // ---------------------------------------------------------------------

  /** The fixed topic vocabulary, in the order the inner loop visits it. */
  const TopicKeywords: seq<string> := [
    "anxiety", "depression", "stress", "work", "relationship", "family",
    "therapy", "medication", "sleep", "mood", "panic", "social",
    "confidence", "self-esteem", "trauma", "grief", "anger", "fear",
    "worry", "overthinking", "boundaries", "communication", "conflict"
  ]

  /** The vocabulary in four rows, to check for repeats piece by piece. */
  const Row1: seq<string> := ["anxiety", "depression", "stress", "work", "relationship", "family"]
  const Row2: seq<string> := ["therapy", "medication", "sleep", "mood", "panic", "social"]
  const Row3: seq<string> := ["confidence", "self-esteem", "trauma", "grief", "anger", "fear"]
  const Row4: seq<string> := ["worry", "overthinking", "boundaries", "communication", "conflict"]

  /** No element of `a` occurs in `b`. */
  predicate Apart(a: seq<string>, b: seq<string>) {
    forall i, j :: 0 <= i < |a| && 0 <= j < |b| ==> a[i] != b[j]
  }

  lemma NoDuplicatesAppend(a: seq<string>, b: seq<string>)
    requires NoDuplicates(a) && NoDuplicates(b) && Apart(a, b)
    ensures NoDuplicates(a + b)
  {
    forall i, j | 0 <= i < j < |a + b| ensures (a + b)[i] != (a + b)[j] {
      if j < |a| {
        assert (a + b)[i] == a[i] && (a + b)[j] == a[j];
      } else if i < |a| {
        assert (a + b)[i] == a[i] && (a + b)[j] == b[j - |a|];
      } else {
        assert (a + b)[i] == b[i - |a|] && (a + b)[j] == b[j - |a|];
      }
    }
  }

  lemma ApartAppend(a: seq<string>, b: seq<string>, c: seq<string>, d: seq<string>)
    requires Apart(a, c) && Apart(a, d) && Apart(b, c) && Apart(b, d)
    ensures Apart(a + b, c + d)
  {
    forall i, j | 0 <= i < |a + b| && 0 <= j < |c + d| ensures (a + b)[i] != (c + d)[j] {
      var x := if i < |a| then a[i] else b[i - |a|];
      var y := if j < |c| then c[j] else d[j - |c|];
      assert (a + b)[i] == x && (c + d)[j] == y;
    }
  }

  lemma RowsDistinct()
    ensures NoDuplicates(Row1) && NoDuplicates(Row2) && NoDuplicates(Row3) && NoDuplicates(Row4)
  {
  }

  lemma RowsApart()
    ensures Apart(Row1, Row2) && Apart(Row1, Row3) && Apart(Row1, Row4)
    ensures Apart(Row2, Row3) && Apart(Row2, Row4) && Apart(Row3, Row4)
  {
  }

  lemma KeywordsDistinct()
    ensures NoDuplicates(TopicKeywords)
  {
    RowsDistinct();
    RowsApart();
    NoDuplicatesAppend(Row1, Row2);
    NoDuplicatesAppend(Row3, Row4);
    ApartAppend(Row1, Row2, Row3, Row4);
    NoDuplicatesAppend(Row1 + Row2, Row3 + Row4);
    assert TopicKeywords == (Row1 + Row2) + (Row3 + Row4);
  }

  /** Position of `x` in `s`, or `|s|` when absent. */
  function IndexOf(s: seq<string>, x: string): (r: nat)
    ensures r <= |s|
    ensures r < |s| ==> s[r] == x
    ensures forall j :: 0 <= j < r ==> s[j] != x
    ensures x in s ==> r < |s|
  {
    if |s| == 0 then 0
    else if s[0] == x then 0
    else 1 + IndexOf(s[1..], x)
  }

  /** A user-authored message whose lower-cased text contains `k`. */
  predicate Mentions(m: Message, k: string) {
    IsUser(m) && Contains(Lower(m.content), k)
  }

  predicate Mentioned(msgs: seq<Message>, k: string) {
    exists i :: 0 <= i < |msgs| && Mentions(msgs[i], k)
  }

  /** Index of the first message mentioning `k`, or `|msgs|` when none does. */
  function FirstMention(msgs: seq<Message>, k: string): (f: nat)
    ensures f <= |msgs|
    ensures f < |msgs| ==> Mentions(msgs[f], k)
    ensures forall j :: 0 <= j < f && j < |msgs| ==> !Mentions(msgs[j], k)
  {
    if |msgs| == 0 then 0
    else
      var f := FirstMention(msgs[..|msgs| - 1], k);
      if f < |msgs| - 1 then f
      else if Mentions(msgs[|msgs| - 1], k) then |msgs| - 1
      else |msgs|
  }

  /** Encounter order: `k1` was first mentioned in an earlier message than
      `k2`, or in the same message and earlier in the vocabulary. */
  predicate TopicBefore(msgs: seq<Message>, vocab: seq<string>, k1: string, k2: string) {
    || FirstMention(msgs, k1) < FirstMention(msgs, k2)
    || (FirstMention(msgs, k1) == FirstMention(msgs, k2) && IndexOf(vocab, k1) < IndexOf(vocab, k2))
  }

  /** The inner `topicKeywords.forEach` over a vocabulary `vocab`, from
      word `i` on: append each word the text contains that is not yet
      collected. */
  function AddTopics(acc: seq<string>, text: string, vocab: seq<string>, i: nat): seq<string>
    requires i <= |vocab|
    decreases |vocab| - i
  {
    if i == |vocab| then acc
    else
      var k := vocab[i];
      AddTopics(if Contains(text, k) && k !in acc then acc + [k] else acc, text, vocab, i + 1)
  }

  /** `r` keeps `acc` as a prefix and appends only new words of `vocab`, from
      position `i` on, that `text` contains. */
  predicate ExtendsWithTopics(r: seq<string>, acc: seq<string>, text: string, vocab: seq<string>, i: nat) {
    && |acc| <= |r| && r[..|acc|] == acc
    && (forall a :: |acc| <= a < |r| ==>
          && r[a] in vocab && i <= IndexOf(vocab, r[a])
          && Contains(text, r[a]) && r[a] !in acc)
  }

  /** The words after position `n` of `r` follow the order of `vocab`. */
  predicate RankedAfter(r: seq<string>, vocab: seq<string>, n: nat) {
    forall a, b :: n <= a < b < |r| ==> IndexOf(vocab, r[a]) < IndexOf(vocab, r[b])
  }

  lemma IndexOfDistinct(vocab: seq<string>, i: nat)
    requires NoDuplicates(vocab) && i < |vocab|
    ensures IndexOf(vocab, vocab[i]) == i
  {
  }

  /** The accumulator is kept as a prefix; each appended word comes from
      position `i` on, occurs in the text and was not collected before. */
  lemma {:induction false} AddTopicsExtends(acc: seq<string>, text: string, vocab: seq<string>, i: nat)
    requires NoDuplicates(vocab) && i <= |vocab|
    ensures ExtendsWithTopics(AddTopics(acc, text, vocab, i), acc, text, vocab, i)
    decreases |vocab| - i
  {
    if i < |vocab| {
      var k := vocab[i];
      IndexOfDistinct(vocab, i);
      var added := Contains(text, k) && k !in acc;
      var acc' := if added then acc + [k] else acc;
      AddTopicsExtends(acc', text, vocab, i + 1);
      var r := AddTopics(acc', text, vocab, i + 1);
      assert r == AddTopics(acc, text, vocab, i);
      assert r[..|acc|] == acc by {
        assert acc'[..|acc|] == acc;
        assert r[..|acc|] == r[..|acc'|][..|acc|];
      }
      forall a | |acc| <= a < |r|
        ensures r[a] in vocab && i <= IndexOf(vocab, r[a]) && Contains(text, r[a]) && r[a] !in acc
      {
        if a < |acc'| {
          assert r[a] == r[..|acc'|][a] == k;
        } else {
          assert r[a] !in acc';
        }
      }
    }
  }

  /** Every word from position `i` on that the text contains ends up
      collected. */
  lemma {:induction false} AddTopicsComplete(acc: seq<string>, text: string, vocab: seq<string>, i: nat, j: nat)
    requires NoDuplicates(vocab) && i <= j < |vocab| && Contains(text, vocab[j])
    ensures vocab[j] in AddTopics(acc, text, vocab, i)
    decreases |vocab| - i
  {
    var k := vocab[i];
    var acc' := if Contains(text, k) && k !in acc then acc + [k] else acc;
    var r := AddTopics(acc', text, vocab, i + 1);
    assert r == AddTopics(acc, text, vocab, i);
    if j == i {
      assert k in acc';
      AddTopicsExtends(acc', text, vocab, i + 1);
      assert k in r[..|acc'|];
    } else {
      AddTopicsComplete(acc', text, vocab, i + 1, j);
    }
  }

  /** Appended words follow vocabulary order and are never repeated. */
  lemma {:induction false} AddTopicsOrdered(acc: seq<string>, text: string, vocab: seq<string>, i: nat)
    requires NoDuplicates(vocab) && i <= |vocab|
    ensures RankedAfter(AddTopics(acc, text, vocab, i), vocab, |acc|)
    ensures NoDuplicates(acc) ==> NoDuplicates(AddTopics(acc, text, vocab, i))
    decreases |vocab| - i
  {
    if i < |vocab| {
      var k := vocab[i];
      IndexOfDistinct(vocab, i);
      var added := Contains(text, k) && k !in acc;
      var acc' := if added then acc + [k] else acc;
      AddTopicsOrdered(acc', text, vocab, i + 1);
      AddTopicsExtends(acc', text, vocab, i + 1);
      var r := AddTopics(acc', text, vocab, i + 1);
      assert r == AddTopics(acc, text, vocab, i);
      forall a, b | |acc| <= a < b < |r| ensures IndexOf(vocab, r[a]) < IndexOf(vocab, r[b]) {
        if a < |acc'| {
          assert r[a] == r[..|acc'|][a] == k;
        }
      }
      if NoDuplicates(acc) {
        assert NoDuplicates(acc');
      }
    }
  }

  /** The inner loop appends, in vocabulary order and without repeats,
      exactly the not yet collected words from position `i` on that the text
      contains. */
  lemma AddTopicsSpec(acc: seq<string>, text: string, vocab: seq<string>, i: nat)
    requires NoDuplicates(vocab) && i <= |vocab|
    ensures ExtendsWithTopics(AddTopics(acc, text, vocab, i), acc, text, vocab, i)
    ensures forall j :: i <= j < |vocab| && Contains(text, vocab[j]) ==>
                        vocab[j] in AddTopics(acc, text, vocab, i)
    ensures RankedAfter(AddTopics(acc, text, vocab, i), vocab, |acc|)
    ensures NoDuplicates(acc) ==> NoDuplicates(AddTopics(acc, text, vocab, i))
  {
    AddTopicsExtends(acc, text, vocab, i);
    AddTopicsOrdered(acc, text, vocab, i);
    forall j | i <= j < |vocab| && Contains(text, vocab[j])
      ensures vocab[j] in AddTopics(acc, text, vocab, i)
    {
      AddTopicsComplete(acc, text, vocab, i, j);
    }
  }

  /** One turn of the outer loop: a user message adds its topics. */
  function TopicStep(prev: seq<string>, m: Message, vocab: seq<string>): seq<string> {
    if IsUser(m) then AddTopics(prev, Lower(m.content), vocab, 0) else prev
  }

  /** The outer `messages.forEach` over a vocabulary, written as recursion on
      the log without its last entry. */
  function CollectTopics(msgs: seq<Message>, vocab: seq<string>): seq<string> {
    if |msgs| == 0 then []
    else TopicStep(CollectTopics(msgs[..|msgs| - 1], vocab), msgs[|msgs| - 1], vocab)
  }

  /** `extractTopicsFromMessages`: every mentioned keyword once, in
      encounter order. */
  function ExtractTopics(msgs: seq<Message>): (r: seq<string>)
    ensures TopicList(r, msgs, TopicKeywords)
  {
    KeywordsDistinct();
    CollectTopicsSpec(msgs, TopicKeywords);
    CollectTopics(msgs, TopicKeywords)
  }

  lemma FirstMentionSnoc(init: seq<Message>, m: Message, k: string)
    ensures FirstMention(init, k) < |init| ==> FirstMention(init + [m], k) == FirstMention(init, k)
    ensures FirstMention(init, k) == |init| && Mentions(m, k) ==> FirstMention(init + [m], k) == |init|
  {
    assert (init + [m])[..|init|] == init;
  }

  lemma MentionedSnoc(init: seq<Message>, m: Message, k: string)
    ensures Mentioned(init + [m], k) <==> Mentioned(init, k) || Mentions(m, k)
  {
    var msgs := init + [m];
    if Mentioned(msgs, k) {
      var i :| 0 <= i < |msgs| && Mentions(msgs[i], k);
      if i < |init| {
        assert msgs[i] == init[i];
      }
    }
    if Mentioned(init, k) {
      var i :| 0 <= i < |init| && Mentions(init[i], k);
      assert msgs[i] == init[i];
    }
    if Mentions(m, k) {
      assert msgs[|init|] == m;
    }
  }

  /** Every collected word is a vocabulary word some user message mentions. */
  predicate TopicsSound(r: seq<string>, msgs: seq<Message>, vocab: seq<string>) {
    forall k :: k in r ==> k in vocab && Mentioned(msgs, k)
  }

  /** Every mentioned vocabulary word is collected. */
  predicate TopicsComplete(r: seq<string>, msgs: seq<Message>, vocab: seq<string>) {
    forall k :: k in vocab && Mentioned(msgs, k) ==> k in r
  }

  /** The collected words are listed in encounter order. */
  predicate InEncounterOrder(r: seq<string>, msgs: seq<Message>, vocab: seq<string>) {
    forall a, b :: 0 <= a < b < |r| ==> TopicBefore(msgs, vocab, r[a], r[b])
  }

  /** `r` lists every mentioned vocabulary word once, nothing else, in
      encounter order. */
  predicate TopicList(r: seq<string>, msgs: seq<Message>, vocab: seq<string>) {
    && NoDuplicates(r)
    && TopicsSound(r, msgs, vocab)
    && TopicsComplete(r, msgs, vocab)
    && InEncounterOrder(r, msgs, vocab)
  }

  lemma NoMembersEmpty(r: seq<string>)
    ensures (forall k :: k !in r) ==> r == []
  {
    if |r| > 0 {
      assert r[0] in r;
    }
  }

  /** Encounter order is a strict order: never both ways. */
  lemma BeforeAsymmetric(msgs: seq<Message>, vocab: seq<string>, k1: string, k2: string)
    ensures !(TopicBefore(msgs, vocab, k1, k2) && TopicBefore(msgs, vocab, k2, k1))
  {
  }

  /** In a list in encounter order the head comes before every other
      member. */
  lemma HeadFirst(r: seq<string>, msgs: seq<Message>, vocab: seq<string>, k: string)
    requires InEncounterOrder(r, msgs, vocab) && |r| > 0
    ensures k in r && k != r[0] ==> TopicBefore(msgs, vocab, r[0], k)
  {
    if k in r && k != r[0] {
      var i :| 0 <= i < |r| && r[i] == k;
    }
  }

  /** Two duplicate-free lists with the same words, both in encounter
      order, are the same list. */
  lemma {:induction false} EncounterOrderUnique(r1: seq<string>, r2: seq<string>, msgs: seq<Message>, vocab: seq<string>)
    requires NoDuplicates(r1) && NoDuplicates(r2)
    requires forall k :: k in r1 <==> k in r2
    requires InEncounterOrder(r1, msgs, vocab) && InEncounterOrder(r2, msgs, vocab)
    ensures r1 == r2
    decreases |r1|
  {
    if |r1| == 0 {
      NoMembersEmpty(r2);
    } else {
      assert r1[0] in r2;
      HeadFirst(r1, msgs, vocab, r2[0]);
      HeadFirst(r2, msgs, vocab, r1[0]);
      BeforeAsymmetric(msgs, vocab, r1[0], r2[0]);
      var t1, t2 := r1[1..], r2[1..];
      forall k ensures k in t1 <==> k in t2 {
        assert k in t1 <==> k in r1 && k != r1[0] by {
          if k in t1 {
            var i :| 0 <= i < |t1| && t1[i] == k;
            assert r1[i + 1] == k;
          }
          if k in r1 && k != r1[0] {
            var i :| 0 <= i < |r1| && r1[i] == k;
            assert t1[i - 1] == k;
          }
        }
        assert k in t2 <==> k in r2 && k != r2[0] by {
          if k in t2 {
            var i :| 0 <= i < |t2| && t2[i] == k;
            assert r2[i + 1] == k;
          }
          if k in r2 && k != r2[0] {
            var i :| 0 <= i < |r2| && r2[i] == k;
            assert t2[i - 1] == k;
          }
        }
      }
      assert InEncounterOrder(t1, msgs, vocab) by {
        forall x, y | 0 <= x < y < |t1| ensures TopicBefore(msgs, vocab, t1[x], t1[y]) {
          assert t1[x] == r1[x + 1] && t1[y] == r1[y + 1];
        }
      }
      assert InEncounterOrder(t2, msgs, vocab) by {
        forall x, y | 0 <= x < y < |t2| ensures TopicBefore(msgs, vocab, t2[x], t2[y]) {
          assert t2[x] == r2[x + 1] && t2[y] == r2[y + 1];
        }
      }
      EncounterOrderUnique(t1, t2, msgs, vocab);
      assert r1 == [r1[0]] + t1 && r2 == [r2[0]] + t2;
    }
  }

  /** There is only one topic list for a log: the words, once each and in
      encounter order, are fixed by what the user messages mention. */
  lemma TopicListUnique(r1: seq<string>, r2: seq<string>, msgs: seq<Message>, vocab: seq<string>)
    requires TopicList(r1, msgs, vocab) && TopicList(r2, msgs, vocab)
    ensures r1 == r2
  {
    EncounterOrderUnique(r1, r2, msgs, vocab);
  }

  /** A user message keeps the collected words sound. */
  lemma StepSound(init: seq<Message>, m: Message, vocab: seq<string>, prev: seq<string>)
    requires NoDuplicates(vocab) && IsUser(m) && TopicsSound(prev, init, vocab)
    ensures TopicsSound(AddTopics(prev, Lower(m.content), vocab, 0), init + [m], vocab)
  {
    var r := AddTopics(prev, Lower(m.content), vocab, 0);
    AddTopicsExtends(prev, Lower(m.content), vocab, 0);
    forall k | k in r ensures k in vocab && Mentioned(init + [m], k) {
      MentionedSnoc(init, m, k);
      var a :| 0 <= a < |r| && r[a] == k;
      if a < |prev| {
        assert k == r[..|prev|][a] == prev[a];
      } else {
        assert Mentions(m, k);
      }
    }
  }

  /** A user message keeps the collected words complete. */
  lemma StepComplete(init: seq<Message>, m: Message, vocab: seq<string>, prev: seq<string>)
    requires NoDuplicates(vocab) && IsUser(m) && TopicsComplete(prev, init, vocab)
    ensures TopicsComplete(AddTopics(prev, Lower(m.content), vocab, 0), init + [m], vocab)
  {
    var r := AddTopics(prev, Lower(m.content), vocab, 0);
    AddTopicsSpec(prev, Lower(m.content), vocab, 0);
    forall k | k in vocab && Mentioned(init + [m], k) ensures k in r {
      MentionedSnoc(init, m, k);
      if Mentioned(init, k) {
        assert k in prev;
        var a :| 0 <= a < |prev| && prev[a] == k;
        assert r[..|prev|][a] == k;
      } else {
        assert Mentions(m, k);
        var j := IndexOf(vocab, k);
        assert vocab[j] == k;
      }
    }
  }

  /** A user message keeps the collected words in encounter order and free
      of repeats. */
  lemma StepOrdered(init: seq<Message>, m: Message, vocab: seq<string>, prev: seq<string>)
    requires NoDuplicates(vocab) && IsUser(m)
    requires TopicsSound(prev, init, vocab) && TopicsComplete(prev, init, vocab)
    requires InEncounterOrder(prev, init, vocab)
    ensures InEncounterOrder(AddTopics(prev, Lower(m.content), vocab, 0), init + [m], vocab)
    ensures NoDuplicates(prev) ==> NoDuplicates(AddTopics(prev, Lower(m.content), vocab, 0))
  {
    var msgs := init + [m];
    var r := AddTopics(prev, Lower(m.content), vocab, 0);
    AddTopicsSpec(prev, Lower(m.content), vocab, 0);
    forall k ensures Mentioned(msgs, k) <==> Mentioned(init, k) || Mentions(m, k) {
      MentionedSnoc(init, m, k);
    }
    forall k ensures FirstMention(init, k) < |init| ==> FirstMention(msgs, k) == FirstMention(init, k)
              ensures FirstMention(init, k) == |init| && Mentions(m, k) ==> FirstMention(msgs, k) == |init|
    {
      FirstMentionSnoc(init, m, k);
    }
    forall a, b | 0 <= a < b < |r| ensures TopicBefore(msgs, vocab, r[a], r[b]) {
      if b < |prev| {
        assert r[a] == r[..|prev|][a] == prev[a] && r[b] == r[..|prev|][b] == prev[b];
        assert TopicBefore(init, vocab, prev[a], prev[b]);
        assert Mentioned(init, prev[a]) && Mentioned(init, prev[b]);
      } else if a < |prev| {
        assert r[a] == r[..|prev|][a] == prev[a];
        assert Mentioned(init, prev[a]);
        assert !Mentioned(init, r[b]);
      } else {
        assert !Mentioned(init, r[a]) && !Mentioned(init, r[b]);
      }
    }
  }

  /** A message from anyone but the user changes nothing that matters. */
  lemma StepOther(init: seq<Message>, m: Message, vocab: seq<string>, prev: seq<string>)
    requires !IsUser(m)
    requires TopicsSound(prev, init, vocab) && TopicsComplete(prev, init, vocab)
    requires InEncounterOrder(prev, init, vocab)
    ensures TopicsSound(prev, init + [m], vocab) && TopicsComplete(prev, init + [m], vocab)
    ensures InEncounterOrder(prev, init + [m], vocab)
  {
    var msgs := init + [m];
    forall k ensures Mentioned(msgs, k) <==> Mentioned(init, k) {
      MentionedSnoc(init, m, k);
    }
    forall k ensures FirstMention(init, k) < |init| ==> FirstMention(msgs, k) == FirstMention(init, k) {
      FirstMentionSnoc(init, m, k);
    }
    forall a, b | 0 <= a < b < |prev| ensures TopicBefore(msgs, vocab, prev[a], prev[b]) {
      assert Mentioned(init, prev[a]) && Mentioned(init, prev[b]);
    }
  }

  lemma {:induction false} CollectTopicsSpec(msgs: seq<Message>, vocab: seq<string>)
    requires NoDuplicates(vocab)
    ensures NoDuplicates(CollectTopics(msgs, vocab))
    ensures TopicsSound(CollectTopics(msgs, vocab), msgs, vocab)
    ensures TopicsComplete(CollectTopics(msgs, vocab), msgs, vocab)
    ensures InEncounterOrder(CollectTopics(msgs, vocab), msgs, vocab)
  {
    if |msgs| > 0 {
      var init := msgs[..|msgs| - 1];
      var m := msgs[|msgs| - 1];
      assert msgs == init + [m];
      CollectTopicsSpec(init, vocab);
      var prev := CollectTopics(init, vocab);
      if IsUser(m) {
        StepSound(init, m, vocab, prev);
        StepComplete(init, m, vocab, prev);
        StepOrdered(init, m, vocab, prev);
      } else {
        StepOther(init, m, vocab, prev);
      }
    }
  }

  /** Topics come only from user messages, each keyword once, every returned
      topic is a vocabulary word some user message contains (and every such
      word is returned), listed in encounter order. */
  lemma ExtractTopicsSpec(msgs: seq<Message>)
    ensures NoDuplicates(ExtractTopics(msgs))
    ensures forall k :: k in ExtractTopics(msgs) ==> k in TopicKeywords && Mentioned(msgs, k)
    ensures forall k :: k in TopicKeywords && Mentioned(msgs, k) ==> k in ExtractTopics(msgs)
    ensures forall a, b :: 0 <= a < b < |ExtractTopics(msgs)| ==>
              TopicBefore(msgs, TopicKeywords, ExtractTopics(msgs)[a], ExtractTopics(msgs)[b])
  {
    KeywordsDistinct();
    CollectTopicsSpec(msgs, TopicKeywords);
  }

  // ---------------------------------------------------------------------
  // User messages and recency windows
  // ---------------------------------------------------------------------

  /** `messages.filter(m => m.sender === 'user')` */
  function UserMessages(msgs: seq<Message>): (r: seq<Message>)
    ensures forall i :: 0 <= i < |r| ==> IsUser(r[i])
    ensures |r| == 0 <==> forall i :: 0 <= i < |msgs| ==> !IsUser(msgs[i])
  {
    if |msgs| == 0 then []
    else
      var m := msgs[|msgs| - 1];
      UserMessages(msgs[..|msgs| - 1]) + (if IsUser(m) then [m] else [])
  }

  /** Assistant messages contribute no topics. */
  lemma {:induction false} TopicsOnlyFromUsers(msgs: seq<Message>, vocab: seq<string>)
    ensures CollectTopics(UserMessages(msgs), vocab) == CollectTopics(msgs, vocab)
  {
    if |msgs| > 0 {
      var init := msgs[..|msgs| - 1];
      var m := msgs[|msgs| - 1];
      var u := UserMessages(init);
      var um := UserMessages(msgs);
      assert CollectTopics(um, vocab) == TopicStep(CollectTopics(u, vocab), m, vocab) by {
        if IsUser(m) {
          assert um == u + [m];
          assert um[..|um| - 1] == u;
        } else {
          assert um == u;
        }
      }
      assert CollectTopics(u, vocab) == CollectTopics(init, vocab) by {
        TopicsOnlyFromUsers(init, vocab);
      }
    }
  }

  /** `s.slice(-n)` for a positive `n`. */
  function LastN<T>(s: seq<T>, n: nat): (r: seq<T>)
    requires n > 0
    ensures |r| == if |s| < n then |s| else n
    ensures r == s[|s| - |r|..]
  {
    if |s| <= n then s else s[|s| - n..]
  }

  // ---------------------------------------------------------------------
  // Emotional tone
  // ---------------------------------------------------------------------

  datatype Tone = Anxious | Sad | Angry | Positive | Neutral

  function ToneName(t: Tone): string {
    match t
    case Anxious => "anxious"
    case Sad => "sad"
    case Angry => "angry"
    case Positive => "positive"
    case Neutral => "neutral"
  }

  function ToneWords(t: Tone): seq<string> {
    match t
    case Anxious => ["anxious", "worried", "stress", "panic", "nervous"]
    case Sad => ["sad", "depressed", "down", "hopeless", "empty"]
    case Angry => ["angry", "frustrated", "mad", "irritated", "annoyed"]
    case Positive => ["good", "better", "happy", "grateful", "hopeful"]
    case Neutral => []
  }

  /** Position of a tone among the keys of `toneCount`. */
  function ToneIndex(t: Tone): nat {
    match t
    case Anxious => 0
    case Sad => 1
    case Angry => 2
    case Positive => 3
    case Neutral => 4
  }

  /** Number of `words` the text contains (each word counted once). */
  function CountWordsIn(text: string, words: seq<string>): (r: nat)
    ensures r <= |words|
    ensures r == 0 <==> forall j :: 0 <= j < |words| ==> !Contains(text, words[j])
  {
    if |words| == 0 then 0
    else (if Contains(text, words[0]) then 1 else 0) + CountWordsIn(text, words[1..])
  }

  /** `toneCount[t]`: one per (user message, word of `t`) pair where the
      lower-cased message contains the word. */
  function ToneCount(msgs: seq<Message>, t: Tone): (r: nat)
    ensures r <= |msgs| * |ToneWords(t)|
  {
    if |msgs| == 0 then 0
    else
      var m := msgs[|msgs| - 1];
      var here := if IsUser(m) then CountWordsIn(Lower(m.content), ToneWords(t)) else 0;
      ToneCount(msgs[..|msgs| - 1], t) + here
  }

  /** A tone scores zero exactly when no user message mentions any of its
      words. */
  lemma {:induction false} ToneCountZero(msgs: seq<Message>, t: Tone)
    ensures ToneCount(msgs, t) == 0 <==>
              forall j :: 0 <= j < |ToneWords(t)| ==> !Mentioned(msgs, ToneWords(t)[j])
  {
    if |msgs| > 0 {
      var init := msgs[..|msgs| - 1];
      var m := msgs[|msgs| - 1];
      assert msgs == init + [m];
      ToneCountZero(init, t);
      forall k ensures Mentioned(msgs, k) <==> Mentioned(init, k) || Mentions(m, k) {
        MentionedSnoc(init, m, k);
      }
    }
  }

  /** `analyzeEmotionalTone`: `Object.keys(toneCount).reduce((a, b) =>
      toneCount[a] > toneCount[b] ? a : b)`, then `neutral` for a zero
      count. */
  function AnalyzeEmotionalTone(msgs: seq<Message>): (r: Tone)
    ensures r != Neutral ==> ToneCount(msgs, r) > 0
  {
    var d1 := if ToneCount(msgs, Anxious) > ToneCount(msgs, Sad) then Anxious else Sad;
    var d2 := if ToneCount(msgs, d1) > ToneCount(msgs, Angry) then d1 else Angry;
    var d3 := if ToneCount(msgs, d2) > ToneCount(msgs, Positive) then d2 else Positive;
    if ToneCount(msgs, d3) > 0 then d3 else Neutral
  }

  /** The result is neutral exactly when every tone scores zero; otherwise
      it has a maximal score and every tone later in the key order scores
      strictly less, so ties go to the later tone. */
  lemma DominantTone(msgs: seq<Message>)
    ensures AnalyzeEmotionalTone(msgs) == Neutral ==> forall t :: t != Neutral ==> ToneCount(msgs, t) == 0
    ensures (forall t :: t != Neutral ==> ToneCount(msgs, t) == 0) ==> AnalyzeEmotionalTone(msgs) == Neutral
    ensures AnalyzeEmotionalTone(msgs) != Neutral ==>
              forall t :: t != Neutral ==> ToneCount(msgs, t) <= ToneCount(msgs, AnalyzeEmotionalTone(msgs))
    ensures AnalyzeEmotionalTone(msgs) != Neutral ==>
              forall t :: t != Neutral && ToneIndex(AnalyzeEmotionalTone(msgs)) < ToneIndex(t) ==>
                            ToneCount(msgs, t) < ToneCount(msgs, AnalyzeEmotionalTone(msgs))
  {
    var r := AnalyzeEmotionalTone(msgs);
    var ca, cs, cg, cp := ToneCount(msgs, Anxious), ToneCount(msgs, Sad),
                          ToneCount(msgs, Angry), ToneCount(msgs, Positive);
    assert r == Anxious ==> ca > cs && ca > cg && ca > cp;
    assert r == Sad ==> cs >= ca && cs > cg && cs > cp;
    assert r == Angry ==> cg >= ca && cg >= cs && cg > cp;
    assert r == Positive ==> cp >= ca && cp >= cs && cp >= cg;
    assert r == Neutral <==> ca == 0 && cs == 0 && cg == 0 && cp == 0;
    forall t | t != Neutral
      ensures r == Neutral ==> ToneCount(msgs, t) == 0
      ensures r != Neutral ==> ToneCount(msgs, t) <= ToneCount(msgs, r)
      ensures r != Neutral && ToneIndex(r) < ToneIndex(t) ==> ToneCount(msgs, t) < ToneCount(msgs, r)
    {
      match t
      case Anxious =>
      case Sad =>
      case Angry =>
      case Positive =>
    }
  }

  /** Neutral exactly when no user message mentions any tone word. */
  lemma NeutralIffNoToneWord(msgs: seq<Message>)
    ensures AnalyzeEmotionalTone(msgs) == Neutral <==>
              forall t, j :: t != Neutral && 0 <= j < |ToneWords(t)| ==> !Mentioned(msgs, ToneWords(t)[j])
  {
    DominantTone(msgs);
    ToneCountZero(msgs, Anxious);
    ToneCountZero(msgs, Sad);
    ToneCountZero(msgs, Angry);
    ToneCountZero(msgs, Positive);
    if AnalyzeEmotionalTone(msgs) == Neutral {
      forall t, j | t != Neutral && 0 <= j < |ToneWords(t)| ensures !Mentioned(msgs, ToneWords(t)[j]) {
        ToneCountZero(msgs, t);
      }
    }
  }

  // ---------------------------------------------------------------------
  // Themes
  // ---------------------------------------------------------------------

  datatype Theme = CopingStrategies | TherapyGoals | Relationships | WorkStress

  const ThemeOrder: seq<Theme> := [CopingStrategies, TherapyGoals, Relationships, WorkStress]

  function ThemeName(t: Theme): string {
    match t
    case CopingStrategies => "coping-strategies"
    case TherapyGoals => "therapy-goals"
    case Relationships => "relationships"
    case WorkStress => "work-stress"
  }

  function ThemePatterns(t: Theme): seq<string> {
    match t
    case CopingStrategies => ["cope", "manage", "deal with", "handle"]
    case TherapyGoals => ["goal", "working on", "trying to", "want to change"]
    case Relationships => ["relationship", "partner", "friend", "family"]
    case WorkStress => ["work", "job", "boss", "career", "colleague"]
  }

  /** Position of a theme name in the key order, or 4 for other strings. */
  function ThemeRank(name: string): (r: nat)
    ensures r <= |ThemeOrder|
    ensures r < |ThemeOrder| ==> name == ThemeName(ThemeOrder[r])
  {
    if name == "coping-strategies" then 0
    else if name == "therapy-goals" then 1
    else if name == "relationships" then 2
    else if name == "work-stress" then 3
    else 4
  }

  lemma ThemeRankAt(i: nat)
    requires i < |ThemeOrder|
    ensures ThemeRank(ThemeName(ThemeOrder[i])) == i
  {
  }

  /** Some user message contains one of the theme's patterns. */
  predicate HasTheme(msgs: seq<Message>, t: Theme) {
    exists j :: 0 <= j < |ThemePatterns(t)| && Mentioned(msgs, ThemePatterns(t)[j])
  }

  /** `userMessages.some(m => patterns.some(p => text.includes(p)))` */
  function SomeUserContainsAny(msgs: seq<Message>, patterns: seq<string>): (r: bool)
    ensures r <==> exists i :: 0 <= i < |msgs| && IsUser(msgs[i]) &&
                              ContainsAny(Lower(msgs[i].content), patterns)
  {
    if |msgs| == 0 then false
    else
      var here := IsUser(msgs[0]) && ContainsAny(Lower(msgs[0].content), patterns);
      var rest := SomeUserContainsAny(msgs[1..], patterns);
      assert forall i :: 1 <= i < |msgs| ==> msgs[1..][i - 1] == msgs[i];
      assert rest ==> exists i :: 0 <= i < |msgs| && IsUser(msgs[i]) &&
                                 ContainsAny(Lower(msgs[i].content), patterns) by {
        if rest {
          var i :| 0 <= i < |msgs[1..]| && IsUser(msgs[1..][i]) &&
                   ContainsAny(Lower(msgs[1..][i].content), patterns);
          assert msgs[i + 1] == msgs[1..][i];
        }
      }
      here || rest
  }

  /** The nested `some` finds a theme exactly when some pattern is mentioned. */
  lemma SomeUserContainsAnyIff(msgs: seq<Message>, t: Theme)
    ensures SomeUserContainsAny(msgs, ThemePatterns(t)) <==> HasTheme(msgs, t)
  {
    var ps := ThemePatterns(t);
    if SomeUserContainsAny(msgs, ps) {
      var i :| 0 <= i < |msgs| && IsUser(msgs[i]) && ContainsAny(Lower(msgs[i].content), ps);
      var j :| 0 <= j < |ps| && Contains(Lower(msgs[i].content), ps[j]);
      assert Mentions(msgs[i], ps[j]);
      assert Mentioned(msgs, ps[j]);
    }
    if HasTheme(msgs, t) {
      var j :| 0 <= j < |ps| && Mentioned(msgs, ps[j]);
      var i :| 0 <= i < |msgs| && Mentions(msgs[i], ps[j]);
      assert ContainsAny(Lower(msgs[i].content), ps);
    }
  }

  /** `hasTheme` for every key of `themePatterns`, in key order. */
  function ThemePresence(msgs: seq<Message>): (p: seq<bool>)
    ensures |p| == |ThemeOrder|
    ensures forall j :: 0 <= j < |p| ==> (p[j] <==> HasTheme(msgs, ThemeOrder[j]))
  {
    var p := seq(|ThemeOrder|, j requires 0 <= j < |ThemeOrder| =>
                   SomeUserContainsAny(msgs, ThemePatterns(ThemeOrder[j])));
    assert forall j :: 0 <= j < |p| ==> (p[j] <==> HasTheme(msgs, ThemeOrder[j])) by {
      forall j | 0 <= j < |p| ensures p[j] <==> HasTheme(msgs, ThemeOrder[j]) {
        SomeUserContainsAnyIff(msgs, ThemeOrder[j]);
      }
    }
    p
  }

  /** The `Object.keys(themePatterns).forEach` loop from key `i` on: the
      name of each present key is pushed. */
  function PushThemes(present: seq<bool>, i: nat): seq<string>
    requires |present| == |ThemeOrder| && i <= |ThemeOrder|
    decreases |ThemeOrder| - i
  {
    if i == |ThemeOrder| then []
    else (if present[i] then [ThemeName(ThemeOrder[i])] else []) + PushThemes(present, i + 1)
  }

  /** `extractKeyThemes`: theme names only, each at most once, in key
      order. */
  function ExtractKeyThemes(msgs: seq<Message>): (r: seq<string>)
    ensures RanksFrom(r, 0) && RanksIncrease(r)
  {
    var p := ThemePresence(msgs);
    PushThemesBounds(p, 0);
    PushThemesOrdered(p, 0);
    PushThemes(p, 0)
  }

  /** Every name in `r` is a theme name of rank at least `i`. */
  predicate RanksFrom(r: seq<string>, i: nat) {
    forall a :: 0 <= a < |r| ==> i <= ThemeRank(r[a]) < |ThemeOrder|
  }

  /** The names in `r` follow the key order strictly. */
  predicate RanksIncrease(r: seq<string>) {
    forall a, b :: 0 <= a < b < |r| ==> ThemeRank(r[a]) < ThemeRank(r[b])
  }

  lemma {:induction false} PushThemesBounds(present: seq<bool>, i: nat)
    requires |present| == |ThemeOrder| && i <= |ThemeOrder|
    ensures RanksFrom(PushThemes(present, i), i)
    decreases |ThemeOrder| - i
  {
    if i < |ThemeOrder| {
      PushThemesBounds(present, i + 1);
      ThemeRankAt(i);
      var rest := PushThemes(present, i + 1);
      var r := PushThemes(present, i);
      var head := if present[i] then [ThemeName(ThemeOrder[i])] else [];
      assert r == head + rest;
      forall a | 0 <= a < |r| ensures i <= ThemeRank(r[a]) < |ThemeOrder| {
        if a >= |head| {
          assert r[a] == rest[a - |head|];
        }
      }
    }
  }

  /** Names pushed from key `i` on come in strictly increasing rank. */
  lemma {:induction false} PushThemesOrdered(present: seq<bool>, i: nat)
    requires |present| == |ThemeOrder| && i <= |ThemeOrder|
    ensures RanksIncrease(PushThemes(present, i))
    decreases |ThemeOrder| - i
  {
    if i < |ThemeOrder| {
      PushThemesOrdered(present, i + 1);
      PushThemesBounds(present, i + 1);
      ThemeRankAt(i);
      var rest := PushThemes(present, i + 1);
      var r := PushThemes(present, i);
      var head := if present[i] then [ThemeName(ThemeOrder[i])] else [];
      assert r == head + rest;
      forall a, b | 0 <= a < b < |r| ensures ThemeRank(r[a]) < ThemeRank(r[b]) {
        assert r[b] == rest[b - |head|];
        if a >= |head| {
          assert r[a] == rest[a - |head|];
        }
      }
    }
  }

  /** A key from `i` on is named exactly when it is present. */
  lemma {:induction false} PushThemesPresent(present: seq<bool>, i: nat, j: nat)
    requires |present| == |ThemeOrder| && i <= j < |ThemeOrder|
    ensures ThemeName(ThemeOrder[j]) in PushThemes(present, i) <==> present[j]
    decreases |ThemeOrder| - i
  {
    ThemeRankAt(i);
    ThemeRankAt(j);
    var rest := PushThemes(present, i + 1);
    var r := PushThemes(present, i);
    var head := if present[i] then [ThemeName(ThemeOrder[i])] else [];
    assert r == head + rest;
    if j == i {
      PushThemesBounds(present, i + 1);
      assert ThemeName(ThemeOrder[i]) !in rest;
    } else {
      assert ThemeName(ThemeOrder[j]) !in head;
      PushThemesPresent(present, i + 1, j);
    }
  }

  /** The themes returned are exactly those present, each named once, in the
      fixed key order coping, goals, relationships, work. */
  lemma ExtractKeyThemesSpec(msgs: seq<Message>)
    ensures var r := ExtractKeyThemes(msgs);
            && (forall a :: 0 <= a < |r| ==> exists t: Theme :: r[a] == ThemeName(t))
            && (forall a, b :: 0 <= a < b < |r| ==> ThemeRank(r[a]) < ThemeRank(r[b]))
            && (forall t: Theme :: ThemeName(t) in r <==> HasTheme(msgs, t))
  {
    var p := ThemePresence(msgs);
    var r := PushThemes(p, 0);
    PushThemesBounds(p, 0);
    PushThemesOrdered(p, 0);
    forall a | 0 <= a < |r| ensures exists t: Theme :: r[a] == ThemeName(t) {
      assert r[a] == ThemeName(ThemeOrder[ThemeRank(r[a])]);
    }
    forall t: Theme ensures ThemeName(t) in r <==> HasTheme(msgs, t) {
      var j := match t
        case CopingStrategies => 0
        case TherapyGoals => 1
        case Relationships => 2
        case WorkStress => 3;
      assert ThemeOrder[j] == t;
      PushThemesPresent(p, 0, j);
    }
  }

  // ---------------------------------------------------------------------
  // Summary and preview
  // ---------------------------------------------------------------------

  const BriefSummary := "Brief conversation with Talbot"
  const GeneralWellbeing := "general wellbeing"

  /** The last five user messages. */
  function RecentUserMessages(msgs: seq<Message>): seq<Message> {
    LastN(UserMessages(msgs), 5)
  }

  /** `topics[0] || 'general wellbeing'`: a keyword the window mentions,
      or the default. */
  function MainTopic(recent: seq<Message>): (r: string)
    ensures r == GeneralWellbeing || (r in TopicKeywords && Mentioned(recent, r))
  {
    var topics := ExtractTopics(recent);
    if |topics| > 0 then
      assert topics[0] in topics;
      topics[0]
    else GeneralWellbeing
  }

  /** The main topic is the earliest-encountered vocabulary word of the
      window, or "general wellbeing" exactly when the window mentions none. */
  lemma MainTopicSpec(recent: seq<Message>)
    ensures var main := MainTopic(recent);
            && (main == GeneralWellbeing <==> forall k :: k in TopicKeywords ==> !Mentioned(recent, k))
            && (main != GeneralWellbeing ==>
                  && main in TopicKeywords && Mentioned(recent, main)
                  && forall k :: k in TopicKeywords && Mentioned(recent, k) && k != main ==>
                                 TopicBefore(recent, TopicKeywords, main, k))
  {
    ExtractTopicsSpec(recent);
    var topics := ExtractTopics(recent);
    assert GeneralWellbeing !in TopicKeywords;
    if |topics| > 0 {
      assert topics[0] in topics;
      assert MainTopic(recent) == topics[0] != GeneralWellbeing;
      forall k | k in TopicKeywords && Mentioned(recent, k) && k != topics[0]
        ensures TopicBefore(recent, TopicKeywords, topics[0], k)
      {
        var b :| 0 <= b < |topics| && topics[b] == k;
      }
    } else {
      forall k | k in TopicKeywords ensures !Mentioned(recent, k) {
      }
    }
  }

  /** `generateConversationSummary` */
  function GenerateConversationSummary(msgs: seq<Message>): (r: string)
    ensures r == BriefSummary <==> forall i :: 0 <= i < |msgs| ==> !IsUser(msgs[i])
    ensures r != BriefSummary ==>
              r == "Recent discussion about " + MainTopic(RecentUserMessages(msgs)) + " and related topics"
  {
    var recent := RecentUserMessages(msgs);
    if |recent| == 0 then BriefSummary
    else
      var s := "Recent discussion about " + MainTopic(recent) + " and related topics";
      assert s[0] != BriefSummary[0];
      s
  }

  const NoContextPreview := "No conversation context to preserve yet."
  const GeneralPreview := "General conversation topics and emotional context."

  /** `generateContextPreview`: the no-context text exactly for an empty
      log. */
  function GenerateContextPreview(msgs: seq<Message>): (r: string)
    ensures r == NoContextPreview <==> |msgs| == 0
  {
    if |msgs| == 0 then NoContextPreview
    else
      var recentTopics := LastN(ExtractTopics(msgs), 3);
      if |recentTopics| == 0 then GeneralPreview
      else
        var r := "Recent topics: " + Join(recentTopics, ", ");
        assert r[0] == 'R';
        r
  }

  /** The preview falls back to fixed texts for an empty log and for a log
      whose user messages mention no vocabulary word. */
  lemma PreviewFallbacks(msgs: seq<Message>)
    ensures |msgs| == 0 ==> GenerateContextPreview(msgs) == NoContextPreview
    ensures |msgs| > 0 && (forall k :: k in TopicKeywords ==> !Mentioned(msgs, k)) ==>
              GenerateContextPreview(msgs) == GeneralPreview
  {
    if |msgs| > 0 && (forall k :: k in TopicKeywords ==> !Mentioned(msgs, k)) {
      ExtractTopicsSpec(msgs);
      var topics := ExtractTopics(msgs);
      if |topics| > 0 {
        assert topics[0] in topics;
      }
    }
  }

  /** A non-empty topic list is shown as its last three entries. */
  lemma PreviewShowsTail(msgs: seq<Message>)
    requires |ExtractTopics(msgs)| >= 1
    ensures var topics := ExtractTopics(msgs);
            GenerateContextPreview(msgs) ==
              "Recent topics: " + Join(topics[|topics| - (if |topics| < 3 then |topics| else 3)..], ", ")
  {
    assert |msgs| > 0;
  }

  /** Once some vocabulary word is mentioned, the preview lists the last
      three of the mentioned topics in encounter order (all of them when
      there are fewer), keeping that order. Together with `TopicListUnique`
      this fixes the preview text. */
  lemma PreviewListsLatestTopics(msgs: seq<Message>, k0: string)
    requires k0 in TopicKeywords && Mentioned(msgs, k0)
    ensures exists topics: seq<string> ::
              && TopicList(topics, msgs, TopicKeywords) && |topics| >= 1
              && GenerateContextPreview(msgs) ==
                   "Recent topics: " + Join(topics[|topics| - (if |topics| < 3 then |topics| else 3)..], ", ")
  {
    KeywordsDistinct();
    CollectTopicsSpec(msgs, TopicKeywords);
    var topics := ExtractTopics(msgs);
    assert k0 in topics;
    PreviewShowsTail(msgs);
    assert TopicList(topics, msgs, TopicKeywords);
  }

  /** The last three entries of a topic list are mentioned vocabulary
      words, and every mentioned word left out comes before each of them. */
  lemma TailLeavesOutOlder(topics: seq<string>, msgs: seq<Message>, vocab: seq<string>)
    requires TopicList(topics, msgs, vocab)
    ensures forall k :: k in LastN(topics, 3) ==> k in vocab && Mentioned(msgs, k)
    ensures forall k, k' :: (k in LastN(topics, 3) && k' in vocab && Mentioned(msgs, k') && k' !in LastN(topics, 3))
                            ==> TopicBefore(msgs, vocab, k', k)
  {
    var shown := LastN(topics, 3);
    var start := |topics| - |shown|;
    forall k | k in shown ensures k in vocab && Mentioned(msgs, k) {
      var b :| 0 <= b < |shown| && shown[b] == k;
      assert topics[start + b] == k;
    }
    forall k, k' | k in shown && k' in vocab && Mentioned(msgs, k') && k' !in shown
      ensures TopicBefore(msgs, vocab, k', k)
    {
      var b :| 0 <= b < |shown| && shown[b] == k;
      assert topics[start + b] == k;
      var a :| 0 <= a < |topics| && topics[a] == k';
    }
  }

  /** Once some vocabulary word is mentioned, the preview lists between one
      and three mentioned topics, and every mentioned topic it leaves out was
      encountered before each one it shows. */
  lemma PreviewOmitsOlderTopics(msgs: seq<Message>, k0: string)
    requires k0 in TopicKeywords && Mentioned(msgs, k0)
    ensures exists shown: seq<string> ::
              && 1 <= |shown| <= 3
              && GenerateContextPreview(msgs) == "Recent topics: " + Join(shown, ", ")
              && (forall k :: k in shown ==> k in TopicKeywords && Mentioned(msgs, k))
              && (forall k, k' :: (k in shown && k' in TopicKeywords && Mentioned(msgs, k') && k' !in shown)
                                  ==> TopicBefore(msgs, TopicKeywords, k', k))
  {
    var topics := ExtractTopics(msgs);
    assert k0 in topics;
    var shown := LastN(topics, 3);
    TailLeavesOutOlder(topics, msgs, TopicKeywords);
    assert GenerateContextPreview(msgs) == "Recent topics: " + Join(shown, ", ");
  }


  // ---------------------------------------------------------------------
  // Memory and the two reset actions
  // ---------------------------------------------------------------------

  /** The object saved under `talbot-conversation-memory`. */
  datatype Memory = Memory(
    lastUpdated: int,
    messageCount: nat,
    topics: seq<string>,
    summary: string,
    emotionalTone: Tone,
    keyThemes: seq<string>)

  /** The manager's state: the UI manager's message log and the memory. */
  datatype ConversationState = ConversationState(log: seq<Message>, memory: Option<Memory>)

  /** The context object built by `saveConversationContext`; `now` is the
      clock reading behind `lastUpdated`. */
  function DeriveMemory(msgs: seq<Message>, now: int): (m: Memory)
    ensures m.messageCount == |msgs| && m.lastUpdated == now
    ensures TopicList(m.topics, msgs, TopicKeywords)
    ensures m.summary != "" && !IsSpace(m.summary[0])
    ensures m.emotionalTone != Neutral ==> ToneCount(msgs, m.emotionalTone) > 0
    ensures RanksIncrease(m.keyThemes)
  {
    SummaryIsVisible(msgs);
    Memory(now, |msgs|, ExtractTopics(msgs), GenerateConversationSummary(msgs),
           AnalyzeEmotionalTone(msgs), ExtractKeyThemes(msgs))
  }

  /** `saveConversationContext`: nothing happens for an empty log;
      otherwise the memory is replaced by one derived from the whole log. */
  function SaveConversationContext(s: ConversationState, now: int): (r: ConversationState)
    ensures r.log == s.log
    ensures |s.log| == 0 ==> r.memory == s.memory
    ensures |s.log| > 0 ==> r.memory.Some? && r.memory.value.messageCount == |s.log|
                            && r.memory.value.lastUpdated == now
  {
    if |s.log| == 0 then s
    else s.(memory := Some(DeriveMemory(s.log, now)))
  }

  /** `clearMessageHistory`: empties the log, memory untouched. */
  function ClearMessageHistory(s: ConversationState): (r: ConversationState)
    ensures r.log == [] && r.memory == s.memory
  {
    s.(log := [])
  }

  /** `clearConversationMemory`: forgets the memory, log untouched. */
  function ClearConversationMemory(s: ConversationState): (r: ConversationState)
    ensures r.memory == None && r.log == s.log
  {
    s.(memory := None)
  }

  /** `handleKeepContext`: save, then clear the log. */
  function HandleKeepContext(s: ConversationState, now: int): (r: ConversationState)
    ensures r.log == []
    ensures |s.log| == 0 ==> r.memory == s.memory
    ensures |s.log| > 0 ==> r.memory == Some(DeriveMemory(s.log, now))
  {
    ClearMessageHistory(SaveConversationContext(s, now))
  }

  /** `handleCompleteReset`; `confirmed` is the answer to the `confirm`
      dialog. */
  function HandleCompleteReset(s: ConversationState, confirmed: bool): (r: ConversationState)
    ensures confirmed ==> r.log == [] && r.memory == None
    ensures !confirmed ==> r == s
  {
    if !confirmed then s
    else ClearConversationMemory(ClearMessageHistory(s))
  }

  /** `hasConversationMemory`: without a saved memory there is no context
      to send. */
  function HasConversationMemory(s: ConversationState): (b: bool)
    ensures !b ==> GetConversationContext(s.memory) == ""
  {
    s.memory.Some?
  }

  /** Keep-context twice in a row is keep-context once: the second call
      sees an empty log and leaves the saved memory alone. A later complete
      reset forgets it again. */
  lemma KeepContextLaws(s: ConversationState, t1: int, t2: int)
    ensures HandleKeepContext(HandleKeepContext(s, t1), t2) == HandleKeepContext(s, t1)
    ensures |s.log| > 0 ==> HasConversationMemory(HandleKeepContext(s, t1))
    ensures HandleCompleteReset(HandleKeepContext(s, t1), true) == ConversationState([], None)
    ensures !HasConversationMemory(HandleCompleteReset(s, true))
  {
  }

  // ---------------------------------------------------------------------
  // Memory rendered as prompt text
  // ---------------------------------------------------------------------

  function SummarySection(m: Memory): (r: string)
    ensures r == "" <==> m.summary == ""
  {
    if m.summary != "" then "Previous conversation context: " + m.summary + ". " else ""
  }

  function TopicsSection(m: Memory): (r: string)
    ensures r == "" <==> |m.topics| == 0
  {
    if |m.topics| > 0 then "Topics previously discussed: " + Join(m.topics, ", ") + ". " else ""
  }

  function ToneSection(m: Memory): (r: string)
    ensures r == "" <==> m.emotionalTone == Neutral
  {
    if m.emotionalTone != Neutral then "Previous emotional tone was " + ToneName(m.emotionalTone) + ". " else ""
  }

  function ThemesSection(m: Memory): (r: string)
    ensures r == "" <==> |m.keyThemes| == 0
  {
    if |m.keyThemes| > 0 then "Key themes from before: " + Join(m.keyThemes, ", ") + ". " else ""
  }

  /** `getConversationContext` */
  function GetConversationContext(memory: Option<Memory>): (r: string)
    ensures memory.None? ==> r == ""
  {
    if memory.None? then ""
    else
      var m := memory.value;
      Trim(SummarySection(m) + TopicsSection(m) + ToneSection(m) + ThemesSection(m))
  }

  /** Text made of sentences: it starts with a visible character and ends
      with ". ". */
  predicate Sentences(s: string) {
    |s| >= 2 && !IsSpace(s[0]) && s[|s| - 2] == '.' && s[|s| - 1] == ' '
  }

  /** Appending another run of sentences, or nothing, keeps the shape. */
  lemma SentencesAppend(a: string, b: string)
    requires a == "" || Sentences(a)
    requires b == "" || Sentences(b)
    ensures a + b == "" || Sentences(a + b)
  {
    if b != "" && a != "" {
      assert (a + b)[0] == a[0];
      assert (a + b)[|a + b| - 2] == b[|b| - 2];
      assert (a + b)[|a + b| - 1] == b[|b| - 1];
    } else if b == "" {
      assert a + b == a;
    } else {
      assert a + b == b;
    }
  }

  /** A labelled sentence `lead + content + ". "` has the shape. */
  lemma SentenceShape(lead: string, content: string)
    requires |lead| > 0 && !IsSpace(lead[0])
    ensures Sentences(lead + content + ". ")
  {
    var s := lead + content + ". ";
    assert s[0] == lead[0];
    assert s[|s| - 2] == '.' && s[|s| - 1] == ' ';
  }

  /** Trimming sentences only drops the final space. */
  lemma TrimSentences(raw: string)
    requires Sentences(raw)
    ensures Trim(raw) + " " == raw
  {
    var body := raw[..|raw| - 1];
    assert TrimStart(raw) == raw;
    assert TrimEnd(raw) == TrimEnd(body);
    assert TrimEnd(body) == body;
    assert body + " " == raw;
  }

  /** When the summary does not start with white space and at least one
      section is present, the trim only drops the final space: the text is
      the sections in the fixed order summary, topics, tone, themes. */
  lemma ConversationContextLayout(m: Memory)
    requires m.summary == "" || !IsSpace(m.summary[0])
    requires m.summary != "" || |m.topics| > 0 || m.emotionalTone != Neutral || |m.keyThemes| > 0
    ensures GetConversationContext(Some(m)) + " " ==
              SummarySection(m) + TopicsSection(m) + ToneSection(m) + ThemesSection(m)
  {
    var s1, s2, s3, s4 := SummarySection(m), TopicsSection(m), ToneSection(m), ThemesSection(m);
    if s1 != "" {
      SentenceShape("Previous conversation context: ", m.summary);
    }
    if s2 != "" {
      SentenceShape("Topics previously discussed: ", Join(m.topics, ", "));
    }
    if s3 != "" {
      SentenceShape("Previous emotional tone was ", ToneName(m.emotionalTone));
    }
    if s4 != "" {
      SentenceShape("Key themes from before: ", Join(m.keyThemes, ", "));
    }
    SentencesAppend(s1, s2);
    SentencesAppend(s1 + s2, s3);
    SentencesAppend(s1 + s2 + s3, s4);
    TrimSentences(s1 + s2 + s3 + s4);
  }

  /** Both summary shapes open with a visible letter. */
  lemma SummaryShapeVisible(s: string, topic: string)
    requires s == BriefSummary || s == "Recent discussion about " + topic + " and related topics"
    ensures s != "" && !IsSpace(s[0])
  {
    if s == BriefSummary {
      assert s[0] == 'B';
    } else {
      LeadingChar("Recent discussion about ", topic, " and related topics");
      assert s[0] == 'R';
    }
  }

  /** The summary of any log is a non-empty sentence fragment. */
  lemma SummaryIsVisible(msgs: seq<Message>)
    ensures var s := GenerateConversationSummary(msgs);
            s != "" && !IsSpace(s[0])
  {
    SummaryShapeVisible(GenerateConversationSummary(msgs), MainTopic(RecentUserMessages(msgs)));
  }

  lemma LeadingChar(a: string, b: string, c: string)
    requires |a| > 0
    ensures (a + b + c)[0] == a[0]
  {
  }

  lemma FirstOfFour(t: string, s1: string, s2: string, s3: string, s4: string)
    requires t == s1 + s2 + s3 + s4
    ensures StartsWith(t, s1)
  {
    assert t == s1 + (s2 + s3 + s4);
    StartsWithPrefix(s1, s2 + s3 + s4);
  }

  /** A memory with a visible summary renders a context that opens with
      the summary sentence. */
  lemma ContextStartsWithSummary(m: Memory)
    requires m.summary != "" && !IsSpace(m.summary[0])
    ensures StartsWith(GetConversationContext(Some(m)) + " ",
                       "Previous conversation context: " + m.summary + ". ")
  {
    ConversationContextLayout(m);
    FirstOfFour(GetConversationContext(Some(m)) + " ",
                SummarySection(m), TopicsSection(m), ToneSection(m), ThemesSection(m));
  }

  /** Any saved memory renders a context that opens with its summary
      sentence. */
  lemma DerivedContextStartsWithSummary(msgs: seq<Message>, now: int)
    ensures var m := DeriveMemory(msgs, now);
            StartsWith(GetConversationContext(Some(m)) + " ",
                       "Previous conversation context: " + m.summary + ". ")
  {
    SummaryIsVisible(msgs);
    ContextStartsWithSummary(DeriveMemory(msgs, now));
  }

  /** Keeping the context of a log in which some user message speaks of
      being anxious about work empties the log and leaves a memory that
      counts every message, lists the topic "work", records the theme
      "work-stress" and a tone other than neutral. */
  lemma KeepAnxiousAboutWork(log: seq<Message>, i: nat, memory: Option<Memory>, now: int)
    requires i < |log| && IsUser(log[i])
    requires Contains(Lower(log[i].content), "anxious") && Contains(Lower(log[i].content), "work")
    ensures var r := HandleKeepContext(ConversationState(log, memory), now);
            && r.log == []
            && r.memory.Some?
            && r.memory.value.messageCount == |log|
            && r.memory.value.emotionalTone != Neutral
            && "work" in r.memory.value.topics
            && "work-stress" in r.memory.value.keyThemes
  {
    assert |log| > 0;
    AnxiousToneNotNeutral(log, i);
    WorkTopicListed(log, i);
    WorkStressThemeListed(log, i);
  }

  lemma AnxiousToneNotNeutral(log: seq<Message>, i: nat)
    requires i < |log| && Mentions(log[i], "anxious")
    ensures AnalyzeEmotionalTone(log) != Neutral
  {
    assert Mentioned(log, ToneWords(Anxious)[0]);
    NeutralIffNoToneWord(log);
  }

  lemma WorkTopicListed(log: seq<Message>, i: nat)
    requires i < |log| && Mentions(log[i], "work")
    ensures "work" in ExtractTopics(log)
  {
    assert "work" in TopicKeywords by {
      assert TopicKeywords[3] == "work";
    }
    assert Mentioned(log, "work");
    ExtractTopicsSpec(log);
  }

  lemma WorkStressThemeListed(log: seq<Message>, i: nat)
    requires i < |log| && Mentions(log[i], "work")
    ensures "work-stress" in ExtractKeyThemes(log)
  {
    assert HasTheme(log, WorkStress) by {
      assert ThemePatterns(WorkStress)[0] == "work";
      assert Mentioned(log, "work");
    }
    ExtractKeyThemesSpec(log);
    assert ThemeName(WorkStress) == "work-stress";
  }

  /** The message "I'm really anxious about work" meets the conditions. */
  lemma AnxiousAboutWorkExample()
    ensures var text := Lower("I'm really anxious about work");
            Contains(text, "anxious") && Contains(text, "work")
  {
    var text := Lower("I'm really anxious about work");
    assert text[11..18] == "anxious";
    ContainsAt(text, "anxious", 11);
    assert text[25..29] == "work";
    ContainsAt(text, "work", 25);
  }
}
