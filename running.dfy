/**
 * `%%comlrun`: before running a cell, every `plt.show()` call is rewritten
 * to `show_svg(plt)` so that the figure is captured as SVG output, and the
 * `show_svg` helper is loaded first.
 */
module Running {
  import opened Text

  const SHOW_CALL := "plt.show()"
  const SVG_CALL := "show_svg(plt)"

  /** Whether the `show_svg` helper is loaded first, and the code that is then run. */
  datatype RunPlan = RunPlan(loadsHelper: bool, code: string)

  /**
   * The cell is run unchanged, without the helper, when it has no
   * `plt.show()`; otherwise the helper is loaded and no `plt.show()` is left
   * in the code that runs.
   */
  function PlanRun(cell: string): (p: RunPlan)
    ensures p.loadsHelper <==> Contains(cell, SHOW_CALL)
    ensures !p.loadsHelper ==> p.code == cell
    ensures p.loadsHelper ==> p.code == ReplaceAll(cell, SHOW_CALL, SVG_CALL)
    ensures !Contains(p.code, SHOW_CALL)
  {
    if Contains(cell, SHOW_CALL) then
      NoShowCallLeft(cell);
      RunPlan(true, ReplaceAll(cell, SHOW_CALL, SVG_CALL))
    else
      RunPlan(false, cell)
  }

  /** `plt.show()` cannot overlap itself. */
  lemma ShowCallHasNoBorder()
    ensures NoBorder(SHOW_CALL)
  {
    forall k | 0 < k < |SHOW_CALL| ensures SHOW_CALL[k..] != SHOW_CALL[..|SHOW_CALL| - k] {
      assert SHOW_CALL[k..][0] != SHOW_CALL[..|SHOW_CALL| - k][0];
    }
  }

  /**
   * The run plan of a cell, read at its first `plt.show()`: the helper is
   * loaded, the text before the call is kept, the call becomes
   * `show_svg(plt)`, and the rest of the cell is planned the same way.
   */
  lemma RewriteAtFirstCall(a: string, b: string)
    requires !Contains(a, SHOW_CALL)
    ensures PlanRun(a + SHOW_CALL + b) == RunPlan(true, a + SVG_CALL + PlanRun(b).code)
  {
    ContainsInside(a, SHOW_CALL, b);
    ShowCallHasNoBorder();
    ReplaceAtFirst(a, SHOW_CALL, b, SVG_CALL);
  }

  /**
   * Every cell that loads the helper splits at its first `plt.show()`: the
   * text before it is kept, the call becomes `show_svg(plt)`, and the rest
   * is planned the same way.
   */
  lemma PlanRunAtFirstCall(cell: string) returns (a: string, b: string)
    requires PlanRun(cell).loadsHelper
    ensures cell == a + SHOW_CALL + b && !Contains(a, SHOW_CALL)
    ensures PlanRun(cell).code == a + SVG_CALL + PlanRun(b).code
  {
    a, b := ContainsOccurs(cell, SHOW_CALL);
    RewriteAtFirstCall(a, b);
  }

  /** The rewritten text never contains `plt.show()`. */
  lemma {:induction false} NoShowCallLeft(s: string)
    ensures !Contains(ReplaceAll(s, SHOW_CALL, SVG_CALL), SHOW_CALL)
    decreases |s|
  {
    if StartsWith(s, SHOW_CALL) {
      var x := ReplaceAll(s[|SHOW_CALL|..], SHOW_CALL, SVG_CALL);
      NoShowCallLeft(s[|SHOW_CALL|..]);
      NoCallAcross(0, x);
      assert SVG_CALL[0..] == SVG_CALL;
    } else if s != [] {
      var x := ReplaceAll(s[1..], SHOW_CALL, SVG_CALL);
      var r := [s[0]] + x;
      assert ReplaceAll(s, SHOW_CALL, SVG_CALL) == r;
      NoShowCallLeft(s[1..]);
      assert r[1..] == x;
      assert !StartsWith(r, SHOW_CALL) by {
        if StartsWith(r, SHOW_CALL) {
          assert x[..|SHOW_CALL| - 1] == r[1..|SHOW_CALL|];
          CallTailSurvives(s[1..], 1);
          StartsWithCons(s, SHOW_CALL);
          assert false;
        }
      }
    }
  }

  // Proof hint: a prefix rebuilt from its first character and the rest.
  lemma StartsWithCons(s: string, p: string)
    requires s != [] && p != [] && s[0] == p[0] && StartsWith(s[1..], p[1..])
    ensures StartsWith(s, p)
  {
    assert s[..|p|] == [s[0]] + s[1..][..|p| - 1];
  }

  /**
   * The replacement text, followed by text without `plt.show()`, contains
   * no `plt.show()`: no occurrence can begin inside `show_svg(plt)`.
   */
  lemma {:induction false} NoCallAcross(j: nat, x: string)
    requires j <= |SVG_CALL|
    requires !Contains(x, SHOW_CALL)
    ensures !Contains(SVG_CALL[j..] + x, SHOW_CALL)
    decreases |SVG_CALL| - j
  {
    var a := SVG_CALL[j..] + x;
    if j == |SVG_CALL| {
      assert a == x;
    } else {
      NoCallAcross(j + 1, x);
      assert a[1..] == SVG_CALL[j + 1..] + x;
      NoCallInsideReplacement(j, x);
    }
  }

  /** No `plt.show()` begins at any position of `show_svg(plt)`. */
  lemma NoCallInsideReplacement(j: nat, x: string)
    requires j < |SVG_CALL|
    ensures !StartsWith(SVG_CALL[j..] + x, SHOW_CALL)
  {
    var a := SVG_CALL[j..] + x;
    if j == 9 {
      assert a[3] == ')';
    } else {
      assert a[0] == SVG_CALL[j] != 'p';
    }
  }

  /** No proper tail of `plt.show()` begins the replacement text. */
  lemma NoCallTailInReplacement(k: nat, x: string)
    requires 1 <= k < |SHOW_CALL|
    ensures !StartsWith(SVG_CALL + x, SHOW_CALL[k..])
  {
    var r := SVG_CALL + x;
    if k == 4 {
      assert r[4] == '_' && SHOW_CALL[k..][4] == '(';
    } else {
      assert r[0] == 's' && SHOW_CALL[k..][0] == SHOW_CALL[k] != 's';
    }
  }

  /**
   * One step of `CallTailSurvives`: the rewritten text can begin with a
   * proper tail of `plt.show()` only where the original begins with that
   * tail's first character and no `plt.show()`, and the rest of the tail
   * then begins the rewrite of the rest.
   */
  lemma CallTailStep(s: string, k: nat)
    requires 1 <= k < |SHOW_CALL|
    requires StartsWith(ReplaceAll(s, SHOW_CALL, SVG_CALL), SHOW_CALL[k..])
    ensures s != [] && s[0] == SHOW_CALL[k]
    ensures k + 1 < |SHOW_CALL| ==> StartsWith(ReplaceAll(s[1..], SHOW_CALL, SVG_CALL), SHOW_CALL[k + 1..])
  {
    var q := SHOW_CALL[k..];
    NoCallUnderTail(s, k);
    ReplaceSkipsChar(s, SHOW_CALL, SVG_CALL);
    StartsWithUncons(s[0], ReplaceAll(s[1..], SHOW_CALL, SVG_CALL), q);
    assert q[1..] == SHOW_CALL[k + 1..];
  }

  /** Text whose rewrite begins with a proper tail of `plt.show()` is non-empty and does not begin with the call. */
  lemma NoCallUnderTail(s: string, k: nat)
    requires 1 <= k < |SHOW_CALL|
    requires StartsWith(ReplaceAll(s, SHOW_CALL, SVG_CALL), SHOW_CALL[k..])
    ensures s != [] && !StartsWith(s, SHOW_CALL)
  {
    if StartsWith(s, SHOW_CALL) {
      NoCallTailInReplacement(k, ReplaceAll(s[|SHOW_CALL|..], SHOW_CALL, SVG_CALL));
    }
  }

  /**
   * A proper tail of `plt.show()` at the front of the rewritten text was
   * already at the front of the original: the replacement cannot produce it.
   */
  lemma {:induction false} CallTailSurvives(s: string, k: nat)
    requires 1 <= k < |SHOW_CALL|
    requires StartsWith(ReplaceAll(s, SHOW_CALL, SVG_CALL), SHOW_CALL[k..])
    ensures StartsWith(s, SHOW_CALL[k..])
    decreases |SHOW_CALL| - k
  {
    CallTailStep(s, k);
    if k + 1 < |SHOW_CALL| {
      CallTailSurvives(s[1..], k + 1);
      assert SHOW_CALL[k..][1..] == SHOW_CALL[k + 1..];
      StartsWithCons(s, SHOW_CALL[k..]);
    } else {
      assert s[..1] == [s[0]];
    }
  }
}
