/** The frontend's small helpers (frontend/src/utils.ts) over integers and error codes. */
module Utils {
  import opened Wrappers
  import opened ErrorTypes

  // ---------------------------------------------------------------------------
  // range

  /**
   * How `range` reads its overloaded arguments into (start, end, step):
   * one argument is an end, two are start and end, three add a step.
   * A step given without an end matches none of the cases and leaves the
   * defaults (0, 0, 1) in place.
   */
  function RangeBounds(a: int, b: Option<int>, c: Option<int>): (bounds: (int, int, int))
    ensures c.None? && b.None? ==> bounds == (0, a, 1)
    ensures c.None? && b.Some? ==> bounds == (a, b.value, 1)
    ensures c.Some? && b.Some? ==> bounds == (a, b.value, c.value)
    ensures c.Some? && b.None? ==> bounds == (0, 0, 1)
  {
    match (b, c)
    case (None, None) => (0, a, 1)
    case (Some(e), None) => (a, e, 1)
    case (Some(e), Some(s)) => (a, e, s)
    case (None, Some(_)) => (0, 0, 1)
  }

  /** Whether a loop from `i` towards `end` by a non-zero `step` still yields `i`. */
  predicate Continues(i: int, end: int, step: int) {
    if step > 0 then i < end else i > end
  }

  /** The values a non-zero-step loop yields from `i` until it passes `end`. */
  function Steps(i: int, end: int, step: int): seq<int>
    requires step != 0
    decreases if step > 0 then end - i else i - end
  {
    if Continues(i, end, step) then [i] + Steps(i + step, end, step) else []
  }

  /** What `range(start, end, step)` yields: start then end for a zero step, the stepping loop otherwise. */
  function Stepping(start: int, end: int, step: int): seq<int> {
    if step == 0 then [start, end] else Steps(start, end, step)
  }

  /** The `range` generator, its yields collected in order. */
  method Range(a: int, b: Option<int>, c: Option<int>) returns (values: seq<int>)
    ensures var (start, end, step) := RangeBounds(a, b, c); values == Stepping(start, end, step)
  {
    var (start, end, step) := RangeBounds(a, b, c);
    values := [];
    if step == 0 {
      values := [start, end];
    } else if step > 0 {
      var i := start;
      while i < end
        invariant values + Steps(i, end, step) == Steps(start, end, step)
        decreases end - i
      {
        values := values + [i];
        i := i + step;
      }
    } else {
      var i := start;
      while i > end
        invariant values + Steps(i, end, step) == Steps(start, end, step)
        decreases i - end
      {
        values := values + [i];
        i := i + step;
      }
    }
  }

  /** A loop from `i` to `end` by `step` yields end - i values, each one more than the last. */
  lemma {:induction false} StepsByOne(i: int, end: int)
    requires i <= end
    ensures Steps(i, end, 1) == seq(end - i, k => i + k)
    decreases end - i
  {
    if i < end {
      StepsByOne(i + 1, end);
    }
  }

  /** `range(n)` yields 0, 1, ..., n - 1, and nothing when n <= 0. */
  lemma RangeUpTo(n: int)
    ensures var (start, end, step) := RangeBounds(n, None, None);
      Stepping(start, end, step) == if n <= 0 then [] else seq(n, k => k)
  {
    if n > 0 {
      StepsByOne(0, n);
    }
  }

  /**
   * With a positive step the values start at `start`, rise by `step` each
   * time, stay in [start, end), and stop only once the next one would reach `end`.
   */
  lemma {:induction false} StepsUpward(start: int, end: int, step: int)
    requires step > 0
    ensures var r := Steps(start, end, step);
      && (|r| == 0 <==> start >= end)
      && (|r| > 0 ==> r[0] == start && r[|r| - 1] + step >= end)
      && (forall k :: 0 <= k < |r| ==> start <= r[k] < end)
      && (forall k :: 0 <= k < |r| - 1 ==> r[k + 1] == r[k] + step)
    decreases end - start
  {
    if start < end {
      StepsUpward(start + step, end, step);
    }
  }

  /**
   * With a negative step the values start at `start`, fall by |step| each
   * time, stay in (end, start], and stop only once the next one would reach `end`.
   */
  lemma {:induction false} StepsDownward(start: int, end: int, step: int)
    requires step < 0
    ensures var r := Steps(start, end, step);
      && (|r| == 0 <==> start <= end)
      && (|r| > 0 ==> r[0] == start && r[|r| - 1] + step <= end)
      && (forall k :: 0 <= k < |r| ==> end < r[k] <= start)
      && (forall k :: 0 <= k < |r| - 1 ==> r[k + 1] == r[k] + step)
    decreases start - end
  {
    if start > end {
      StepsDownward(start + step, end, step);
    }
  }

  /** The values of a non-zero step are strictly monotone in the step's direction. */
  lemma StepsMonotone(start: int, end: int, step: int, j: int, k: int)
    requires step != 0
    requires 0 <= j < k < |Steps(start, end, step)|
    ensures step > 0 ==> Steps(start, end, step)[j] < Steps(start, end, step)[k]
    ensures step < 0 ==> Steps(start, end, step)[j] > Steps(start, end, step)[k]
    decreases k - j
  {
    if step > 0 { StepsUpward(start, end, step); } else { StepsDownward(start, end, step); }
    if j + 1 < k {
      StepsMonotone(start, end, step, j + 1, k);
    }
  }

  /** A zero step yields exactly two values, the start and then the end. */
  lemma ZeroStepYieldsBounds(start: int, end: int)
    ensures Stepping(start, end, 0) == [start, end]
  {
  }

  // ---------------------------------------------------------------------------
  // findSum

  /** `array.reduce((prev, curr) => prev + curr, 0)`: a left fold of + from 0; no negative element, no negative sum. */
  function FindSum(a: seq<int>): (sum: int)
    ensures (forall k :: 0 <= k < |a| ==> 0 <= a[k]) ==> 0 <= sum
  {
    if |a| == 0 then 0 else FindSum(a[..|a| - 1]) + a[|a| - 1]
  }

  /** The fold's two defining equations: the empty sum and one more element. */
  lemma {:induction false} FindSumSnoc(a: seq<int>, x: int)
    ensures FindSum([]) == 0
    ensures FindSum(a + [x]) == FindSum(a) + x
  {
    assert (a + [x])[..|a|] == a;
  }

  /** Summing a concatenation sums the parts. */
  lemma {:induction false} FindSumAppend(a: seq<int>, b: seq<int>)
    ensures FindSum(a + b) == FindSum(a) + FindSum(b)
    decreases |b|
  {
    if |b| == 0 {
      assert a + b == a;
    } else {
      var b' := b[..|b| - 1];
      assert a + b == (a + b') + [b[|b| - 1]];
      FindSumSnoc(a + b', b[|b| - 1]);
      FindSumAppend(a, b');
      FindSumSnoc(b', b[|b| - 1]);
      assert b == b' + [b[|b| - 1]];
    }
  }

  /** Adding one to a single element adds one to the sum. */
  lemma {:induction false} FindSumIncrement(a: seq<int>, j: int)
    requires 0 <= j < |a|
    ensures FindSum(a[j := a[j] + 1]) == FindSum(a) + 1
    decreases |a|
  {
    var n := |a|;
    var a' := a[j := a[j] + 1];
    if j == n - 1 {
      assert a'[..n - 1] == a[..n - 1];
    } else {
      assert a'[..n - 1] == a[..n - 1][j := a[j] + 1];
      FindSumIncrement(a[..n - 1], j);
    }
  }

  // ---------------------------------------------------------------------------
  // Error message keys

  /**
   * `getErrorTitleKey`: the i18n key of an error page's title. Every code
   * without a page of its own falls back to the unknown-error title, and
   * only those do.
   */
  function ErrorTitleKey(e: ErrorKind): (key: string)
    ensures key == "errors.unknown_error_title" <==> e !in {VkLoginError, AuthorizationRequired, NotFoundError, Forbidden}
  {
    match e
    case VkLoginError => "errors.vk_login_error_title"
    case AuthorizationRequired => "errors.unauthorized_error_title"
    case NotFoundError => "errors.not_found_error_title"
    case Forbidden => "errors.forbidden_title"
    case _ => "errors.unknown_error_title"
  }

  /**
   * `getErrorDescriptionKey`: the i18n key of an error page's description,
   * with the same fallback to the unknown-error description.
   */
  function ErrorDescriptionKey(e: ErrorKind): (key: string)
    ensures key == "errors.unknown_error_description" <==> e !in {VkLoginError, AuthorizationRequired, NotFoundError, Forbidden}
  {
    match e
    case VkLoginError => "errors.vk_login_error_description"
    case AuthorizationRequired => "errors.unauthorized_error_description"
    case NotFoundError => "errors.not_found_error_description"
    case Forbidden => "errors.forbidden_description"
    case _ => "errors.unknown_error_description"
  }

  /** The four specific codes get four different titles. */
  lemma TitleKeysDistinct(e1: ErrorKind, e2: ErrorKind)
    requires e1 != e2
    requires e1 != UnknownError && e2 != UnknownError
    ensures ErrorTitleKey(e1) != ErrorTitleKey(e2)
  {
  }

  /** A title key lives under "errors." and ends in "_title". */
  predicate IsTitleKey(key: string) {
    |key| > 13 && key[..7] == "errors." && key[|key| - 6..] == "_title"
  }

  /** `description` is the title key `title` with its "_title" suffix replaced by "_description". */
  predicate MatchingKeys(title: string, description: string) {
    IsTitleKey(title) && description == title[..|title| - 6] + "_description"
  }

  /** Replacing the "_title" suffix of `stem + "_title"` gives `stem + "_description"`. */
  lemma {:induction false} SwapSuffix(stem: string, title: string, description: string)
    requires |stem| > 7 && stem[..7] == "errors."
    requires title == stem + "_title" && description == stem + "_description"
    ensures MatchingKeys(title, description)
  {
    assert title[..7] == stem[..7];
    assert title[..|title| - 6] == stem;
    assert title[|title| - 6..] == "_title";
  }

  // One lemma per error code: each code's two keys share their stem.

  lemma {:induction false} VkLoginKeysMatch()
    ensures MatchingKeys(ErrorTitleKey(VkLoginError), ErrorDescriptionKey(VkLoginError))
  {
    SwapSuffix("errors.vk_login_error", "errors.vk_login_error_title", "errors.vk_login_error_description");
  }

  lemma {:induction false} UnauthorizedKeysMatch()
    ensures MatchingKeys(ErrorTitleKey(AuthorizationRequired), ErrorDescriptionKey(AuthorizationRequired))
  {
    SwapSuffix("errors.unauthorized_error", "errors.unauthorized_error_title", "errors.unauthorized_error_description");
  }

  lemma {:induction false} NotFoundKeysMatch()
    ensures MatchingKeys(ErrorTitleKey(NotFoundError), ErrorDescriptionKey(NotFoundError))
  {
    SwapSuffix("errors.not_found_error", "errors.not_found_error_title", "errors.not_found_error_description");
  }

  lemma {:induction false} ForbiddenKeysMatch()
    ensures MatchingKeys(ErrorTitleKey(Forbidden), ErrorDescriptionKey(Forbidden))
  {
    SwapSuffix("errors.forbidden", "errors.forbidden_title", "errors.forbidden_description");
  }

  lemma {:induction false} UnknownKeysMatch()
    ensures MatchingKeys(ErrorTitleKey(UnknownError), ErrorDescriptionKey(UnknownError))
  {
    SwapSuffix("errors.unknown_error", "errors.unknown_error_title", "errors.unknown_error_description");
  }

  /** For every code, the description key is the title key with "_title" replaced by "_description". */
  lemma {:induction false} DescriptionKeyMatchesTitleKey(e: ErrorKind)
    ensures MatchingKeys(ErrorTitleKey(e), ErrorDescriptionKey(e))
  {
    match e
    case VkLoginError => VkLoginKeysMatch();
    case AuthorizationRequired => UnauthorizedKeysMatch();
    case NotFoundError => NotFoundKeysMatch();
    case Forbidden => ForbiddenKeysMatch();
    case UnknownError => UnknownKeysMatch();
  }
}
