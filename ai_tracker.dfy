/**
 * The browser-side behaviour tracker: events go into a queue that is handed to the server in
 * batches of ten, clicks feed a sliding window that detects a confused user, scrolling is
 * reported in steps of ten percent and at five once-per-session milestones, and a periodic
 * check reports idleness. The clock and the page geometry are parameters; the AJAX layer is
 * the `sent` outbox, in hand-over order.
 */
module AiTracker {
  import PhpValues
  import JsValues
  import Orders

  const BatchSize: nat := 10
  const ScrollStep: int := 10
  const IdleLimit: int := 30000
  const ClickWindow: nat := 10
  const RecentClicks: nat := 5
  const ConfusionThreshold: nat := 3
  const Milestones: seq<int> := [25, 50, 75, 90, 100]

  /** The element behind a click, as the confusion detector records it. */
  datatype Click = Click(id: string, cls: string, time: int)

  datatype Payload =
    | PageView
    | Scroll(percent: int, down: bool)
    | ClickEvent(elementType: string, elementId: string, elementClass: string, text: string, href: string)
    | FormFocus(fieldName: string, fieldType: string)
    | FormChange(fieldName: string, fieldType: string, value: string)
    | PageHidden(timeSpent: int, engagement: int)
    | PageVisible
    | Idle(duration: int)
    | ScrollMilestone(milestone: int)
    | ConfusedUser(elementId: string, elementClass: string, clickCount: nat)
    | EngagementScore(score: int, scrollDepth: int, interactions: nat)

  datatype Event = Event(payload: Payload, timestamp: int)

  /** How many events one flush takes from the front of a queue of length `n`. */
  function BatchOf(n: nat): (k: nat)
    ensures k <= n && k <= BatchSize
    ensures k == n || k == BatchSize
  {
    if n < BatchSize then n else BatchSize
  }

  /** A scroll is reported when it moves at least ten points away from the last reported one. */
  predicate ScrollSignificant(percent: int, last: int)
  {
    percent - last >= ScrollStep || last - percent >= ScrollStep
  }

  predicate IsSensitive(fieldName: string, fieldType: string)
  {
    fieldType == "password" || fieldType == "email" || Orders.Contains(fieldName, "credit")
  }

  /** The value a form change reports: redacted for sensitive fields, cut to 100 characters otherwise. */
  function ReportedValue(fieldName: string, fieldType: string, value: string): (v: string)
    ensures IsSensitive(fieldName, fieldType) ==> v == "[REDACTED]"
    ensures !IsSensitive(fieldName, fieldType) && |value| <= 100 ==> v == value
    ensures !IsSensitive(fieldName, fieldType) && |value| > 100 ==> |v| == 103 && v[..100] == value[..100]
    ensures |v| <= 103
  {
    if IsSensitive(fieldName, fieldType) then "[REDACTED]"
    else if |value| > 100 then value[..100] + "..."
    else value
  }

  /** At most the first `n` characters, like `substring(0, n)`. */
  function Prefix(s: string, n: nat): (r: string)
    ensures |r| <= n && r <= s
    ensures |s| <= n ==> r == s
  {
    if |s| <= n then s else s[..n]
  }

  /**
   * The text a click reports: the element's text trimmed as String.prototype.trim does, then
   * cut to 50 characters. It neither starts with a blank nor exceeds 50 characters, and it is
   * the whole trimmed text when that is short enough.
   */
  function ClickText(text: string): (r: string)
    ensures |r| <= 50 && r <= JsValues.JsTrim(text)
    ensures r == [] || !JsValues.IsJsSpace(r[0])
    ensures |JsValues.JsTrim(text)| <= 50 ==> r == JsValues.JsTrim(text)
    ensures r == [] <==> JsValues.JsTrim(text) == []
  {
    Prefix(JsValues.JsTrim(text), 50)
  }

  /** A button whose text is laid out over several lines reports only its words. */
  lemma ClickTextOfIndentedButton(text: string)
    requires text == "\n    Add to cart\n  "
    ensures ClickText(text) == "Add to cart"
  {
    var lead, words, trail := "\n    ", "Add to cart", "\n  ";
    assert text == lead + words + trail;
    assert forall i :: 0 <= i < |lead| ==> JsValues.IsJsSpace(lead[i]);
    assert forall i :: 0 <= i < |trail| ==> JsValues.IsJsSpace(trail[i]);
    PhpValues.TrimWithOfPadded(lead, words, trail, JsValues.IsJsSpace);
  }


  /** The click history after pushing one click: the oldest entry is shifted out past ten. */
  function Window(history: seq<Click>): (w: seq<Click>)
    ensures |history| <= ClickWindow + 1 ==> |w| <= ClickWindow
    ensures |w| <= |history| && w == history[|history| - |w|..]
  {
    if |history| > ClickWindow then history[1..] else history
  }

  /** `slice(-n)`: the last `n` entries, or all of them. */
  function Last(n: nat, s: seq<Click>): (r: seq<Click>)
    ensures |r| == if |s| < n then |s| else n
    ensures r == s[|s| - |r|..]
  {
    if |s| <= n then s else s[|s| - n..]
  }

  /** How many clicks of `s` hit the same id and class as `c`. */
  function CountSame(s: seq<Click>, c: Click): (k: nat)
    ensures k <= |s|
    ensures k == 0 <==> forall j :: 0 <= j < |s| ==> s[j].id != c.id || s[j].cls != c.cls
  {
    if s == [] then 0
    else CountSame(s[..|s| - 1], c) + (if s[|s| - 1].id == c.id && s[|s| - 1].cls == c.cls then 1 else 0)
  }

  /** The milestones of `ms`, in order, that a scroll to `percent` reaches and that have not fired. */
  function MilestonesToFire(percent: int, fired: set<int>, ms: seq<int>): (r: seq<int>)
    ensures forall m :: m in r <==> m in ms && percent >= m && m !in fired
  {
    if ms == [] then []
    else MilestonesToFire(percent, fired, ms[..|ms| - 1])
         + (var m := ms[|ms| - 1]; if percent >= m && m !in fired then [m] else [])
  }

  function MilestoneEvents(ms: seq<int>, now: int): (r: seq<Event>)
    ensures |r| == |ms| && forall j :: 0 <= j < |ms| ==> r[j] == Event(ScrollMilestone(ms[j]), now)
  {
    seq(|ms|, j requires 0 <= j < |ms| => Event(ScrollMilestone(ms[j]), now))
  }

  lemma MilestoneEventsAppend(ms: seq<int>, m: int, now: int)
    ensures MilestoneEvents(ms + [m], now) == MilestoneEvents(ms, now) + [Event(ScrollMilestone(m), now)]
  {
  }

  lemma MilestonesStep(percent: int, fired: set<int>, i: nat)
    requires i < |Milestones|
    ensures MilestonesToFire(percent, fired, Milestones[..i + 1])
            == MilestonesToFire(percent, fired, Milestones[..i])
               + (if percent >= Milestones[i] && Milestones[i] !in fired then [Milestones[i]] else [])
  {
    assert Milestones[..i + 1][..i] == Milestones[..i];
  }

  /** The milestones are increasing, so none of them occurs before its own position. */
  lemma MilestoneIsNew(i: nat)
    requires i < |Milestones|
    ensures Milestones[i] !in Milestones[..i]
  {
    assert Milestones == [25, 50, 75, 90, 100];
  }

  /**
   * A milestone fires at most once per session: whatever a second scroll reaches, it does not
   * fire a milestone the first scroll fired.
   */
  lemma MilestoneFiresOnce(p1: int, p2: int, fired: set<int>, m: int)
    requires m in MilestonesToFire(p1, fired, Milestones)
    ensures forall fired' :: (forall x :: x in MilestonesToFire(p1, fired, Milestones) ==> x in fired') ==>
              m !in MilestonesToFire(p2, fired', Milestones)
  {
  }

  /** A scroll that reaches every milestone of `ms`, none of them fired yet, fires all of them in order. */
  lemma {:induction false} ReachedMilestonesAllFire(percent: int, fired: set<int>, ms: seq<int>)
    requires forall j :: 0 <= j < |ms| ==> ms[j] <= percent && ms[j] !in fired
    ensures MilestonesToFire(percent, fired, ms) == ms
  {
    if ms != [] {
      ReachedMilestonesAllFire(percent, fired, ms[..|ms| - 1]);
      assert ms == ms[..|ms| - 1] + [ms[|ms| - 1]];
    }
  }

  /**
   * The detector only ever looks at the last five clicks of the whole history: shifting the
   * window past ten entries never drops one of them.
   */
  lemma WindowKeepsRecent(history: seq<Click>)
    ensures Last(RecentClicks, Window(history)) == Last(RecentClicks, history)
  {
  }

  /** The new click always counts itself, so a fresh history needs three clicks before it fires. */
  lemma {:induction false} NewClickCountsItself(history: seq<Click>, c: Click)
    ensures CountSame(history + [c], c) == CountSame(history, c) + 1
  {
    assert (history + [c])[..|history + [c]| - 1] == history;
  }

  /** After the history is cleared, the next two clicks cannot report a confused user. */
  lemma ClearedHistoryIsQuiet(a: Click, b: Click)
    ensures CountSame(Last(RecentClicks, Window([a])), a) < ConfusionThreshold
    ensures CountSame(Last(RecentClicks, Window([a, b])), b) < ConfusionThreshold
  {
    var one := Last(RecentClicks, Window([a]));
    var two := Last(RecentClicks, Window([a, b]));
    assert |one| <= 1 && |two| <= 2;
    assert CountSame(one, a) <= |one| && CountSame(two, b) <= |two|;
  }

  /** Pushing one event and flushing on a full queue keeps a queue shorter than a batch short. */
  lemma {:induction false} QueueStaysShort(queue: seq<Event>, e: Event)
    requires |queue| < BatchSize
    ensures var q := queue + [e]; |(if |q| >= BatchSize then q[BatchOf(|q|)..] else q)| < BatchSize
  {
    var q := queue + [e];
    assert |q| == |queue| + 1;
    if |q| >= BatchSize {
      assert BatchOf(|q|) == |q|;
    }
  }

  class Tracker {
    const enabled: bool
    var queue: seq<Event>
    var sent: seq<Event>
    var lastScrollPosition: int
    var lastActivityTime: int
    var clickPatterns: seq<Click>
    /** The `scroll_milestone_*` keys set in session storage. */
    var firedMilestones: set<int>

    ghost predicate Valid()
      reads this
    {
      |clickPatterns| <= ClickWindow
    }

    /** Every event handed over or still waiting, in tracking order. */
    ghost function Stream(): seq<Event>
      reads this
    {
      sent + queue
    }

    constructor(trackingEnabled: bool, now: int, sessionMilestones: set<int>)
      ensures Valid()
      ensures enabled == trackingEnabled && queue == [] && sent == [] && clickPatterns == []
      ensures lastScrollPosition == 0 && lastActivityTime == now && firedMilestones == sessionMilestones
    {
      enabled := trackingEnabled;
      queue := [];
      sent := [];
      lastScrollPosition := 0;
      lastActivityTime := now;
      clickPatterns := [];
      firedMilestones := sessionMilestones;
    }

    /** flushQueue: the first min(length, 10) events leave the queue for the server, in order. */
    method FlushQueue()
      modifies this
      ensures queue == old(queue)[BatchOf(|old(queue)|)..]
      ensures sent == old(sent) + old(queue)[..BatchOf(|old(queue)|)]
      ensures Stream() == old(Stream())
      ensures unchanged(this`lastScrollPosition, this`lastActivityTime, this`clickPatterns, this`firedMilestones)
    {
      if |queue| == 0 {
        return;
      }
      var k := BatchOf(|queue|);
      var events := queue[..k];
      queue := queue[k..];
      sent := sent + events;
      assert old(queue) == events + queue;
    }

    /** trackEvent: nothing when tracking is off; otherwise queue the event and flush a full queue. */
    method TrackEvent(p: Payload, now: int)
      modifies this
      ensures !enabled ==> queue == old(queue) && sent == old(sent)
      ensures enabled ==> Stream() == old(Stream()) + [Event(p, now)]
      ensures enabled && |old(queue)| + 1 < BatchSize ==> queue == old(queue) + [Event(p, now)] && sent == old(sent)
      ensures enabled && |old(queue)| + 1 >= BatchSize ==>
                var q := old(queue) + [Event(p, now)];
                queue == q[BatchOf(|q|)..] && sent == old(sent) + q[..BatchOf(|q|)]
      ensures |old(queue)| < BatchSize ==> |queue| < BatchSize
      ensures unchanged(this`lastScrollPosition, this`lastActivityTime, this`clickPatterns, this`firedMilestones)
    {
      if !enabled {
        return;
      }
      ghost var before := queue;
      queue := queue + [Event(p, now)];
      if |queue| >= BatchSize {
        FlushQueue();
      }
      if |before| < BatchSize {
        QueueStaysShort(before, Event(p, now));
      }
    }

    /** initTracker: when tracking is on, report the page view (timers and listeners are host plumbing). */
    method InitTracker(now: int)
      modifies this
      ensures !enabled ==> queue == old(queue) && sent == old(sent)
      ensures enabled ==> Stream() == old(Stream()) + [Event(PageView, now)]
      ensures unchanged(this`lastScrollPosition, this`lastActivityTime, this`clickPatterns, this`firedMilestones)
    {
      if !enabled {
        return;
      }
      TrackEvent(PageView, now);
    }

    /**
     * trackScroll: a scroll event, whose direction compares with the last reported position,
     * only for a move of at least ten points; the position is remembered only then. Any scroll
     * counts as activity.
     */
    method TrackScroll(percent: int, now: int)
      modifies this
      ensures ScrollSignificant(percent, old(lastScrollPosition)) ==>
                lastScrollPosition == percent
                && (enabled ==> Stream() == old(Stream()) + [Event(Scroll(percent, percent > old(lastScrollPosition)), now)])
      ensures !ScrollSignificant(percent, old(lastScrollPosition)) ==>
                lastScrollPosition == old(lastScrollPosition) && queue == old(queue) && sent == old(sent)
      ensures !enabled ==> queue == old(queue) && sent == old(sent)
      ensures |old(queue)| < BatchSize ==> |queue| < BatchSize
      ensures lastActivityTime == now
      ensures unchanged(this`clickPatterns, this`firedMilestones)
    {
      if ScrollSignificant(percent, lastScrollPosition) {
        TrackEvent(Scroll(percent, percent > lastScrollPosition), now);
        lastScrollPosition := percent;
      }
      lastActivityTime := now;
    }

    /** trackScrollDepth: every milestone reached and not yet in session storage is stored and reported, in order. */
    method TrackScrollDepth(percent: int, now: int)
      modifies this
      ensures forall m :: m in firedMilestones <==> m in old(firedMilestones) || m in MilestonesToFire(percent, old(firedMilestones), Milestones)
      ensures enabled ==> Stream() == old(Stream()) + MilestoneEvents(MilestonesToFire(percent, old(firedMilestones), Milestones), now)
      ensures !enabled ==> queue == old(queue) && sent == old(sent)
      ensures |old(queue)| < BatchSize ==> |queue| < BatchSize
      ensures unchanged(this`lastScrollPosition, this`lastActivityTime, this`clickPatterns)
    {
      ghost var fired0 := firedMilestones;
      ghost var emitted: seq<int> := [];
      for i := 0 to |Milestones|
        invariant emitted == MilestonesToFire(percent, fired0, Milestones[..i])
        invariant forall m :: m in firedMilestones <==> m in fired0 || m in emitted
        invariant enabled ==> Stream() == old(Stream()) + MilestoneEvents(emitted, now)
        invariant !enabled ==> queue == old(queue) && sent == old(sent)
        invariant |old(queue)| < BatchSize ==> |queue| < BatchSize
        invariant lastScrollPosition == old(lastScrollPosition) && lastActivityTime == old(lastActivityTime)
        invariant clickPatterns == old(clickPatterns)
      {
        var m := Milestones[i];
        MilestonesStep(percent, fired0, i);
        MilestoneIsNew(i);
        ghost var fires := percent >= m && m !in fired0;
        CheckMilestone(m, percent, now);
        if fires {
          MilestoneEventsAppend(emitted, m, now);
          emitted := emitted + [m];
        }
      }
      assert Milestones[..|Milestones|] == Milestones;
    }

    /** One turn of the milestone loop. */
    method CheckMilestone(m: int, percent: int, now: int)
      modifies this
      ensures var fires := percent >= m && m !in old(firedMilestones);
              && (forall x :: x in firedMilestones <==> x in old(firedMilestones) || (fires && x == m))
              && (enabled ==> Stream() == old(Stream()) + (if fires then [Event(ScrollMilestone(m), now)] else []))
      ensures !enabled ==> queue == old(queue) && sent == old(sent)
      ensures |old(queue)| < BatchSize ==> |queue| < BatchSize
      ensures unchanged(this`lastScrollPosition, this`lastActivityTime, this`clickPatterns)
    {
      if percent >= m && m !in firedMilestones {
        firedMilestones := firedMilestones + {m};
        TrackEvent(ScrollMilestone(m), now);
      }
    }

    /**
     * trackClick: report the click and count it as activity. `tagName` is the element's tag
     * name, reported lower-cased; `text` is its text content, reported as ClickText.
     */
    method TrackClick(tagName: string, id: string, cls: string, text: string, href: string, now: int)
      modifies this
      ensures enabled ==> Stream() == old(Stream()) + [Event(ClickEvent(PhpValues.Lower(tagName), id, cls, ClickText(text), href), now)]
      ensures !enabled ==> queue == old(queue) && sent == old(sent)
      ensures |old(queue)| < BatchSize ==> |queue| < BatchSize
      ensures lastActivityTime == now
      ensures unchanged(this`lastScrollPosition, this`clickPatterns, this`firedMilestones)
    {
      TrackEvent(ClickEvent(PhpValues.Lower(tagName), id, cls, ClickText(text), href), now);
      lastActivityTime := now;
    }

    /** trackFormFocus. */
    method TrackFormFocus(fieldName: string, fieldType: string, now: int)
      modifies this
      ensures enabled ==> Stream() == old(Stream()) + [Event(FormFocus(fieldName, fieldType), now)]
      ensures !enabled ==> queue == old(queue) && sent == old(sent)
      ensures |old(queue)| < BatchSize ==> |queue| < BatchSize
      ensures lastActivityTime == now
      ensures unchanged(this`lastScrollPosition, this`clickPatterns, this`firedMilestones)
    {
      TrackEvent(FormFocus(fieldName, fieldType), now);
      lastActivityTime := now;
    }

    /** trackFormChange: the value is redacted or shortened before it is reported. */
    method TrackFormChange(fieldName: string, fieldType: string, value: string, now: int)
      modifies this
      ensures enabled ==> Stream() == old(Stream()) + [Event(FormChange(fieldName, fieldType, ReportedValue(fieldName, fieldType, value)), now)]
      ensures !enabled ==> queue == old(queue) && sent == old(sent)
      ensures |old(queue)| < BatchSize ==> |queue| < BatchSize
      ensures lastActivityTime == now
      ensures unchanged(this`lastScrollPosition, this`clickPatterns, this`firedMilestones)
    {
      TrackEvent(FormChange(fieldName, fieldType, ReportedValue(fieldName, fieldType, value)), now);
      lastActivityTime := now;
    }

    /**
     * detectConfusedUser: push the click, keep the last ten, and report a confused user when at
     * least three of the last five clicks hit the new click's element; the history is then cleared.
     */
    method DetectConfusedUser(c: Click) returns (confused: bool)
      requires Valid()
      modifies this
      ensures Valid()
      ensures confused <==> CountSame(Last(RecentClicks, old(clickPatterns) + [c]), c) >= ConfusionThreshold
      ensures confused ==> clickPatterns == []
      ensures !confused ==> clickPatterns == Window(old(clickPatterns) + [c]) && queue == old(queue) && sent == old(sent)
      ensures confused && enabled ==>
                Stream() == old(Stream()) + [Event(ConfusedUser(c.id, c.cls, CountSame(Last(RecentClicks, old(clickPatterns) + [c]), c)), c.time)]
      ensures unchanged(this`lastScrollPosition, this`lastActivityTime, this`firedMilestones)
    {
      ghost var history := clickPatterns + [c];
      ghost var stream0 := sent + queue;
      clickPatterns := clickPatterns + [c];
      if |clickPatterns| > ClickWindow {
        clickPatterns := clickPatterns[1..];
      }
      assert clickPatterns == Window(history);
      var recent := Last(RecentClicks, clickPatterns);
      assert recent == Last(RecentClicks, history) by {
        WindowKeepsRecent(history);
      }
      var same := CountSame(recent, c);
      confused := same >= ConfusionThreshold;
      if confused {
        TrackEvent(ConfusedUser(c.id, c.cls, same), c.time);
        assert enabled ==> sent + queue == stream0 + [Event(ConfusedUser(c.id, c.cls, same), c.time)];
        clickPatterns := [];
      }
    }

    /** The idle detector's tick: report idleness past thirty seconds and restart the idle clock. */
    method IdleTick(now: int) returns (idle: bool)
      modifies this
      ensures idle <==> now - old(lastActivityTime) > IdleLimit
      ensures idle ==> lastActivityTime == now && (enabled ==> Stream() == old(Stream()) + [Event(Idle(now - old(lastActivityTime)), now)])
      ensures !idle ==> lastActivityTime == old(lastActivityTime) && queue == old(queue) && sent == old(sent)
      ensures unchanged(this`lastScrollPosition, this`clickPatterns, this`firedMilestones)
    {
      var idleTime := now - lastActivityTime;
      idle := idleTime > IdleLimit;
      if idle {
        TrackEvent(Idle(idleTime), now);
        lastActivityTime := now;
      }
    }

    /** visibilitychange: hiding reports the time spent and flushes; showing restarts the activity clock. */
    method VisibilityChange(hidden: bool, now: int, engagement: int)
      modifies this
      ensures hidden && enabled ==>
                var e := Event(PageHidden(now - old(lastActivityTime), engagement), now);
                Stream() == old(Stream()) + [e]
      ensures hidden ==> lastActivityTime == old(lastActivityTime)
      ensures !hidden ==> lastActivityTime == now && (enabled ==> Stream() == old(Stream()) + [Event(PageVisible, now)])
      ensures hidden && |old(queue)| < BatchSize ==> queue == []
      ensures !hidden && |old(queue)| < BatchSize ==> |queue| < BatchSize
      ensures unchanged(this`lastScrollPosition, this`clickPatterns, this`firedMilestones)
    {
      if hidden {
        TrackEvent(PageHidden(now - lastActivityTime, engagement), now);
        FlushQueue();
      } else {
        lastActivityTime := now;
        TrackEvent(PageVisible, now);
      }
    }

    /**
     * beforeunload: the engagement handler is bound when the script loads, before the flushing
     * handler bound at initialisation, so the engagement event is queued first and then flushed.
     */
    method BeforeUnload(score: int, scrollDepth: int, now: int)
      requires Valid()
      modifies this
      ensures enabled ==> Stream() == old(Stream()) + [Event(EngagementScore(score, scrollDepth, |old(clickPatterns)|), now)]
      ensures |old(queue)| < BatchSize ==> queue == []
      ensures unchanged(this`lastScrollPosition, this`lastActivityTime, this`clickPatterns, this`firedMilestones)
    {
      TrackEvent(EngagementScore(score, scrollDepth, |clickPatterns|), now);
      FlushQueue();
    }
  }
}
