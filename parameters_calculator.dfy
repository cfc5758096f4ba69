/** The cutting-parameter calculator: spindle speed from cutting speed and
    tool diameter, feed rate from feed per tooth, number of teeth and that
    speed, and the centre feed for thread milling from that feed rate, the
    tool diameter and the thread diameter. Each step accepts its inputs by
    JavaScript truthiness (present and non-zero), not by sign, and takes the
    previous step's result as an input. */
module ParametersCalculator {
  import opened Wrappers
  import opened JsNumbers

  /** `calculateRPM`: n = Vc * 1000 / (PI * D), or nothing. */
  function Rpm(vc: Option<real>, d: Option<real>): (r: Option<real>)
    ensures r.Some? <==> Truthy(vc) && Truthy(d)
    ensures r.Some? ==> r.value * (PI * d.value) == vc.value * 1000.0
  {
    if Truthy(vc) && Truthy(d) then
      CircumferenceNonZero(d.value);
      Some((vc.value * 1000.0) / (PI * d.value))
    else None
  }

  /** A tool of non-zero diameter has a non-zero circumference, so the speed
      formula never divides by zero. */
  lemma CircumferenceNonZero(d: real)
    requires d != 0.0
    ensures PI * d != 0.0
  {
    if d > 0.0 { MulPositive(PI, d); } else { MulPositive(PI, -d); }
  }

  /** `calculateFeed`: F = fz * z * n, or nothing; a missing speed gives
      no feed. */
  function Feed(fz: Option<real>, teeth: Option<real>, rpm: Option<real>): (r: Option<real>)
    ensures r.Some? <==> Truthy(fz) && Truthy(teeth) && Truthy(rpm)
    ensures r.Some? ==> r.value == fz.value * teeth.value * rpm.value
  {
    if Truthy(fz) && Truthy(teeth) && Truthy(rpm) then Some(fz.value * teeth.value * rpm.value)
    else None
  }

  /** `calculateCenterFeed`: Fc = F * (d2 - d1) / d2 when the thread is wider
      than the tool, or nothing. */
  function CenterFeed(feed: Option<real>, d1: Option<real>, d2: Option<real>): (r: Option<real>)
    ensures r.Some? <==> Truthy(feed) && Truthy(d1) && Truthy(d2) && d2.value > d1.value
    ensures r.Some? ==> r.value * d2.value == feed.value * (d2.value - d1.value)
  {
    if Truthy(feed) && Truthy(d1) && Truthy(d2) && d2.value > d1.value then
      Some((feed.value * (d2.value - d1.value)) / d2.value)
    else None
  }

  // ---------------------------------------------------------------------------
  // Properties

  /** With a positive tool diameter the speed has the sign of the cutting
      speed: a negative cutting speed is accepted and gives a negative speed. */
  lemma RpmHasSignOfCuttingSpeed(vc: real, d: real)
    requires vc != 0.0 && d > 0.0
    ensures Rpm(Some(vc), Some(d)).Some?
    ensures Rpm(Some(vc), Some(d)).value > 0.0 <==> vc > 0.0
  {
    MulPositive(PI, d);
  }

  /** Through the chain, the feed rate is the cutting speed's feed over the
      tool's circumference: F·(π·D) = fz·z·Vc·1000. */
  lemma FeedFromCuttingSpeed(vc: real, d: real, fz: real, teeth: real)
    requires vc != 0.0 && d != 0.0 && fz != 0.0 && teeth != 0.0
    ensures Feed(Some(fz), Some(teeth), Rpm(Some(vc), Some(d))).Some?
    ensures Feed(Some(fz), Some(teeth), Rpm(Some(vc), Some(d))).value * (PI * d) == fz * teeth * vc * 1000.0
  {
    var n := Rpm(Some(vc), Some(d)).value;
    assert n * (PI * d) != 0.0;
    calc {
      Feed(Some(fz), Some(teeth), Rpm(Some(vc), Some(d))).value * (PI * d);
    ==
      (fz * teeth * n) * (PI * d);
    ==
      (fz * teeth) * (n * (PI * d));
    ==
      (fz * teeth) * (vc * 1000.0);
    }
  }

  /** With the thread wider than a positive tool and a positive feed, the
      centre feed is positive and strictly below the feed. */
  lemma CenterFeedBelowFeed(f: real, d1: real, d2: real)
    requires d2 > d1 > 0.0 && f > 0.0
    ensures CenterFeed(Some(f), Some(d1), Some(d2)).Some?
    ensures 0.0 < CenterFeed(Some(f), Some(d1), Some(d2)).value < f
  {
    var fc := CenterFeed(Some(f), Some(d1), Some(d2)).value;
    var gap, cut := d2 - d1, f * d1;
    MulPositive(f, gap);
    MulPositive(f, d1);
    assert (f * gap) / d2 > 0.0;
    assert cut / d2 > 0.0;
    calc {
      fc;
    ==
      (f * gap) / d2;
    ==
      (f * d2 - cut) / d2;
    ==
      f - cut / d2;
    }
  }

  /** No speed means no feed and no centre feed, whatever else is entered. */
  lemma NoRpmClearsChain(vc: Option<real>, d: Option<real>, fz: Option<real>, teeth: Option<real>, holeDia: Option<real>)
    requires !Truthy(vc) || !Truthy(d)
    ensures Rpm(vc, d) == None
    ensures Feed(fz, teeth, Rpm(vc, d)) == None
    ensures CenterFeed(Feed(fz, teeth, Rpm(vc, d)), d, holeDia) == None
  {
  }

  // ---------------------------------------------------------------------------
  // The calculator's state

  /** The component's state: the parsed value of each of the five input
      fields ('' parses to `None`) and the three results it shows. */
  class ParametersCalculatorState {
    var vc: Option<real>
    var diameter: Option<real>
    var fz: Option<real>
    var teeth: Option<real>
    var holeDia: Option<real>

    var rpmResult: Option<real>
    var feedResult: Option<real>
    var centerFeedResult: Option<real>

    /** The results are the chain of the three formulas over the current
      inputs; the centre feed reads the same tool-diameter field as the
      speed. */
    predicate Consistent()
      reads this
    {
      && rpmResult == Rpm(vc, diameter)
      && feedResult == Feed(fz, teeth, rpmResult)
      && centerFeedResult == CenterFeed(feedResult, diameter, holeDia)
    }

    /** The state the component starts in: every field empty, no results. */
    constructor ()
      ensures vc == None && diameter == None && fz == None && teeth == None && holeDia == None
      ensures rpmResult == None && feedResult == None && centerFeedResult == None
      ensures Consistent()
    {
      vc, diameter, fz, teeth, holeDia := None, None, None, None, None;
      rpmResult, feedResult, centerFeedResult := None, None, None;
    }

    /** `calculateRPM`: stores and returns the speed. */
    method CalculateRpm() returns (n: Option<real>)
      modifies this`rpmResult
      ensures n == Rpm(vc, diameter) && rpmResult == n
    {
      if Truthy(vc) && Truthy(diameter) {
        CircumferenceNonZero(diameter.value);
        n := Some((vc.value * 1000.0) / (PI * diameter.value));
        rpmResult := n;
        return;
      }
      rpmResult := None;
      return None;
    }

    /** `calculateFeed`: stores and returns the feed rate for the given speed. */
    method CalculateFeed(rpmValue: Option<real>) returns (feed: Option<real>)
      modifies this`feedResult
      ensures feed == Feed(fz, teeth, rpmValue) && feedResult == feed
    {
      if Truthy(fz) && Truthy(teeth) && Truthy(rpmValue) {
        feed := Some(fz.value * teeth.value * rpmValue.value);
        feedResult := feed;
        return;
      }
      feedResult := None;
      return None;
    }

    /** `calculateCenterFeed`: stores the centre feed for the given feed rate. */
    method CalculateCenterFeed(feedValue: Option<real>)
      modifies this`centerFeedResult
      ensures centerFeedResult == CenterFeed(feedValue, diameter, holeDia)
    {
      if Truthy(feedValue) && Truthy(diameter) && Truthy(holeDia) && holeDia.value > diameter.value {
        var fc := (feedValue.value * (holeDia.value - diameter.value)) / holeDia.value;
        assert CenterFeed(feedValue, diameter, holeDia).Some?;
        assert CenterFeed(feedValue, diameter, holeDia).value == fc;
        centerFeedResult := Some(fc);
      } else {
        centerFeedResult := None;
      }
    }

    /** The effect that runs after every input change: speed, then feed from
      that speed, then centre feed from that feed. The inputs stay as they
      are. */
    method Recompute()
      modifies this`rpmResult, this`feedResult, this`centerFeedResult
      ensures Consistent()
      ensures !Truthy(vc) || !Truthy(diameter) ==> rpmResult == None && feedResult == None && centerFeedResult == None
    {
      var rpmValue := CalculateRpm();
      var feedValue := CalculateFeed(rpmValue);
      CalculateCenterFeed(feedValue);
    }

    /** `handleClear`: empties all five fields and all three results. */
    method HandleClear()
      modifies this
      ensures vc == None && diameter == None && fz == None && teeth == None && holeDia == None
      ensures rpmResult == None && feedResult == None && centerFeedResult == None
      ensures Consistent()
    {
      vc := None;
      diameter := None;
      fz := None;
      teeth := None;
      holeDia := None;
      rpmResult := None;
      feedResult := None;
      centerFeedResult := None;
    }
  }
}
