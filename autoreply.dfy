/** The automatic answer to a customer query (`getAutoReply`, backend/server.js): a fixed
    keyword table first, then the stored manual answer whose question shares the most long
    words with the message, then the database's text search, whose hit is a parameter here. */
module AutoReply {
  import opened Wrappers
  import Text
  import Seqs

  /** The keyword table, in the order its entries are tried. */
  const CommonQuestions: seq<(string, string)> := [
    ("hours", "Our business hours are Monday to Friday, 9am to 5pm."),
    ("delivery", "Standard delivery takes 3-5 business days. Express delivery is available for an additional fee."),
    ("return", "You can return items within 30 days of purchase with original receipt."),
    ("contact", "You can reach our support team at support@example.com or call +1 (555) 123-4567."),
    ("price", "For pricing information, please visit our products page.")
  ]

  /** The first table entry from `k` on whose keyword occurs in the lower-cased message. */
  function KeywordReplyFrom(lowerMessage: string, k: nat): (r: Option<string>)
    requires k <= |CommonQuestions|
    ensures r.Some? <==> exists i :: k <= i < |CommonQuestions| && Text.Contains(lowerMessage, CommonQuestions[i].0)
    decreases |CommonQuestions| - k
  {
    if k == |CommonQuestions| then None
    else if Text.Contains(lowerMessage, CommonQuestions[k].0) then Some(CommonQuestions[k].1)
    else KeywordReplyFrom(lowerMessage, k + 1)
  }

  function KeywordReply(message: string): Option<string>
  {
    KeywordReplyFrom(Text.Lower(message), 0)
  }

  /** The table answer is the one of the first matching keyword. */
  lemma {:induction false} KeywordReplyIsFirstMatch(lowerMessage: string, k: nat, i: nat)
    requires k <= i < |CommonQuestions| && Text.Contains(lowerMessage, CommonQuestions[i].0)
    requires forall j :: k <= j < i ==> !Text.Contains(lowerMessage, CommonQuestions[j].0)
    ensures KeywordReplyFrom(lowerMessage, k) == Some(CommonQuestions[i].1)
    decreases i - k
  {
    if k < i {
      KeywordReplyIsFirstMatch(lowerMessage, k + 1, i);
    }
  }

  /** The keywords are matched without regard to case. */
  lemma KeywordReplyIgnoresCase(m1: string, m2: string)
    requires Text.Lower(m1) == Text.Lower(m2)
    ensures KeywordReply(m1) == KeywordReply(m2)
  {
  }

  // ---------- split(/\s+/) ----------

  /** The end of the blank run starting at `i`. */
  function RunEnd(s: string, i: nat): (j: nat)
    requires i <= |s|
    ensures i <= j <= |s| && (j < |s| ==> !Text.IsSpace(s[j]))
    ensures forall k :: i <= k < j ==> Text.IsSpace(s[k])
    decreases |s| - i
  {
    if i < |s| && Text.IsSpace(s[i]) then RunEnd(s, i + 1) else i
  }

  /** The first blank at or after `i`, or `|s|`. */
  function NextSpace(s: string, i: nat): (j: nat)
    requires i <= |s|
    ensures i <= j <= |s| && (j < |s| ==> Text.IsSpace(s[j]))
    ensures forall k :: i <= k < j ==> !Text.IsSpace(s[k])
    decreases |s| - i
  {
    if i < |s| && !Text.IsSpace(s[i]) then NextSpace(s, i + 1) else i
  }

  /** `s.split(/\s+/)`: the pieces between runs of blanks; a leading or trailing run gives
      an empty first or last piece, and the empty string gives one empty piece. */
  function SplitWs(s: string): (r: seq<string>)
    ensures |r| >= 1
    ensures forall k :: 0 <= k < |r| ==> Text.NoSpaces(r[k])
    decreases |s|
  {
    var i := NextSpace(s, 0);
    if i == |s| then [s]
    else
      var j := RunEnd(s, i);
      [s[..i]] + SplitWs(s[j..])
  }

  /** Joining blank-free, non-empty words with single spaces and splitting gives them back. */
  lemma {:induction false} SplitWsJoin(words: seq<string>)
    requires |words| >= 1
    requires forall k :: 0 <= k < |words| ==> words[k] != "" && Text.NoSpaces(words[k])
    ensures SplitWs(Text.Join(words, ' ')) == words
    decreases |words|
  {
    var s := Text.Join(words, ' ');
    var w := words[0];
    if |words| == 1 {
      assert NextSpace(s, 0) == |s| by {
        NoSpaceRun(s, 0);
      }
    } else {
      var rest := Text.Join(words[1..], ' ');
      assert s == w + [' '] + rest;
      NoSpaceRun(w, 0);
      assert forall k :: 0 <= k < |w| ==> s[k] == w[k];
      NextSpaceAt(s, |w|);
      assert NextSpace(s, 0) == |w|;
      JoinNonEmptyStart(words[1..]);
      assert RunEnd(s, |w|) == |w| + 1 by {
        assert !Text.IsSpace(s[|w| + 1]);
        assert RunEnd(s, |w| + 1) == |w| + 1;
      }
      assert s[..|w|] == w;
      assert s[|w| + 1..] == rest;
      SplitWsJoin(words[1..]);
    }
  }

  lemma {:induction false} NoSpaceRun(s: string, i: nat)
    requires i <= |s| && forall k :: i <= k < |s| ==> !Text.IsSpace(s[k])
    ensures NextSpace(s, i) == |s|
    decreases |s| - i
  {
    if i < |s| {
      NoSpaceRun(s, i + 1);
    }
  }

  lemma {:induction false} NextSpaceAt(s: string, j: nat)
    requires j < |s| && Text.IsSpace(s[j]) && forall k :: 0 <= k < j ==> !Text.IsSpace(s[k])
    ensures NextSpace(s, 0) == j
  {
    NextSpaceFrom(s, 0, j);
  }

  lemma {:induction false} NextSpaceFrom(s: string, i: nat, j: nat)
    requires i <= j < |s| && Text.IsSpace(s[j]) && forall k :: i <= k < j ==> !Text.IsSpace(s[k])
    ensures NextSpace(s, i) == j
    decreases j - i
  {
    if i < j {
      NextSpaceFrom(s, i + 1, j);
    }
  }

  lemma JoinNonEmptyStart(words: seq<string>)
    requires |words| >= 1 && words[0] != "" && Text.NoSpaces(words[0])
    ensures |Text.Join(words, ' ')| >= 1 && Text.Join(words, ' ')[0] == words[0][0]
  {
  }

  // ---------- word-overlap score ----------

  /** A stored manual answer: the question it answered and the answer. */
  datatype ManualResponse = ManualResponse(message: string, autoReply: string)

  /** How many message words (with repetition) are longer than 3 and occur in the answer's
      question. */
  function CommonWords(messageWords: seq<string>, responseWords: seq<string>): (n: nat)
    ensures n <= |messageWords|
  {
    |Seqs.Filter(w => w in responseWords && |w| > 3, messageWords)|
  }

  function Words(s: string): (r: seq<string>)
    ensures |r| >= 1
  {
    SplitWs(Text.Lower(s))
  }

  function MaxLen(a: seq<string>, b: seq<string>): (n: nat)
    ensures n >= |a| && n >= |b| && (n == |a| || n == |b|)
  {
    if |a| >= |b| then |a| else |b|
  }

  /** common / max(length of the two word lists). */
  function Score(message: string, response: ManualResponse): (s: real)
    ensures 0.0 <= s <= 1.0
  {
    WordScore(Words(message), Words(response.message))
  }

  /** The score of two word lists. */
  function WordScore(mw: seq<string>, rw: seq<string>): (s: real)
    requires |mw| >= 1
    ensures 0.0 <= s <= 1.0
  {
    ScoreBounds(CommonWords(mw, rw), MaxLen(mw, rw));
    CommonWords(mw, rw) as real / MaxLen(mw, rw) as real
  }

  lemma ScoreBounds(c: nat, m: nat)
    requires 1 <= m && c <= m
    ensures 0.0 <= c as real / m as real <= 1.0
  {
  }

  /** Stated over integers, the threshold `score > 0.3` is `10 × common > 3 × max`. */
  lemma ThresholdOverIntegers(c: nat, m: nat)
    requires m >= 1
    ensures c as real / m as real > 0.3 <==> 10 * c > 3 * m
  {
    RealThreshold(c as real, m as real);
  }

  lemma RealThreshold(c: real, m: real)
    requires m > 0.0
    ensures c / m > 0.3 <==> 10.0 * c > 3.0 * m
  {
    var s := c / m;
    assert c == s * m;
    if s > 0.3 {
      assert (s - 0.3) * m > 0.0;
    }
    if 10.0 * c > 3.0 * m {
      assert (s - 0.3) * m > 0.0;
    }
  }

  /** Response `i` is the answer chosen: above the threshold, no other scores higher, and
      none before it scores as high. */
  ghost predicate IsFirstBest(message: string, responses: seq<ManualResponse>, i: nat)
  {
    i < |responses| && Score(message, responses[i]) > 0.3 &&
    (forall k :: 0 <= k < |responses| ==> Score(message, responses[k]) <= Score(message, responses[i])) &&
    (forall k :: 0 <= k < i ==> Score(message, responses[k]) < Score(message, responses[i]))
  }

  /** What the loop knows after the first `k` answers: none scored above 0.3 yet, or `best`
      is the first of them with the highest score, which is above 0.3. */
  ghost predicate Leading(message: string, responses: seq<ManualResponse>, k: nat, best: Option<nat>, bestScore: real)
    requires k <= |responses|
  {
    (best.None? ==> bestScore == 0.0 && forall j :: 0 <= j < k ==> Score(message, responses[j]) <= 0.3) &&
    (best.Some? ==>
      best.value < k && bestScore == Score(message, responses[best.value]) && bestScore > 0.3 &&
      (forall j :: 0 <= j < k ==> Score(message, responses[j]) <= bestScore) &&
      (forall j :: 0 <= j < best.value ==> Score(message, responses[j]) < bestScore))
  }

  /** One step of the loop keeps `Leading`. */
  lemma LeadingStep(message: string, responses: seq<ManualResponse>, k: nat, best: Option<nat>, bestScore: real)
    requires k < |responses| && Leading(message, responses, k, best, bestScore)
    ensures var score := Score(message, responses[k]);
      if score > bestScore && score > 0.3 then Leading(message, responses, k + 1, Some(k), score)
      else Leading(message, responses, k + 1, best, bestScore)
  {
    var score := Score(message, responses[k]);
    if score > bestScore && score > 0.3 {
      forall j | 0 <= j < k
        ensures Score(message, responses[j]) < score
      {
      }
    }
  }

  /** The loop over the manual answers, keeping the first strictly best score above 0.3. */
  method BestManualMatch(message: string, responses: seq<ManualResponse>) returns (best: Option<nat>)
    ensures best.None? <==> forall k :: 0 <= k < |responses| ==> Score(message, responses[k]) <= 0.3
    ensures best.Some? ==> IsFirstBest(message, responses, best.value)
  {
    var messageWords := Words(message);
    var bestScore := 0.0;
    best := None;
    for k := 0 to |responses|
      invariant Leading(message, responses, k, best, bestScore)
    {
      var responseWords := Words(responses[k].message);
      var score := WordScore(messageWords, responseWords);
      assert score == Score(message, responses[k]);
      LeadingStep(message, responses, k, best, bestScore);
      if score > bestScore && score > 0.3 {
        bestScore := score;
        best := Some(k);
      }
    }
  }

  /** `getAutoReply`: the keyword table, then the best manual answer, then the text-search
      hit's answer when it has one; otherwise nothing. */
  method GetAutoReply(message: string, responses: seq<ManualResponse>, textSearchHit: Option<string>)
    returns (reply: Option<string>)
    ensures KeywordReply(message).Some? ==> reply == KeywordReply(message)
    ensures KeywordReply(message).None? && (exists k :: 0 <= k < |responses| && Score(message, responses[k]) > 0.3) ==>
      exists i: nat :: IsFirstBest(message, responses, i) && reply == Some(responses[i].autoReply)
    ensures KeywordReply(message).None? && (forall k :: 0 <= k < |responses| ==> Score(message, responses[k]) <= 0.3) ==>
      reply == (if textSearchHit.Some? && textSearchHit.value != "" then textSearchHit else None)
  {
    var keyword := KeywordReply(message);
    if keyword.Some? {
      return keyword;
    }
    var best := BestManualMatch(message, responses);
    if best.Some? {
      return Some(responses[best.value].autoReply);
    }
    if textSearchHit.Some? && textSearchHit.value != "" {
      return textSearchHit;
    }
    return None;
  }

  /** The first best answer is unique. */
  lemma FirstBestUnique(message: string, responses: seq<ManualResponse>, i: nat, j: nat)
    requires IsFirstBest(message, responses, i) && IsFirstBest(message, responses, j)
    ensures i == j
  {
  }
}
