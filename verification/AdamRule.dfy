/** The Adam and AdamW update of one parameter, over the reals, with square root and division as parameters. */
module AdamRule {

  /** Square root and division are total functions; nothing is assumed about them. */
  datatype Math = Math(root: real -> real, quotient: (real, real) -> real) {
    function Sqrt(x: real): real { root(x) }

    function Div(x: real, y: real): real { quotient(x, y) }
  }

  /** One parameter and its two running averages. */
  datatype Cell = Cell(param: real, momentum: real, variance: real)

  /** The coefficients of one step; bc1 and bc2 are the two bias corrections. */
  datatype Rule = Rule(alpha: real, beta1: real, beta2: real, eps: real, weightDecay: real, adamw: bool, bc1: real,
                       bc2: real)

  /** With Adam the weight decay is added to the gradient. */
  ghost function Gradient(r: Rule, grad: real, param: real): real {
    if r.weightDecay > 0.0 && !r.adamw then grad + r.weightDecay * param else grad
  }

  /** With AdamW it shrinks the parameter. */
  ghost function Decayed(r: Rule, param: real): real {
    if r.weightDecay > 0.0 && r.adamw then param - r.alpha * r.weightDecay * param else param
  }

  ghost function Average(beta: real, average: real, x: real): real {
    beta * average + (1.0 - beta) * x
  }

  ghost function Moved(f: Math, r: Rule, param: real, m: real, v: real): real {
    param + Times(f.Div(m, Denominator(f, r, v)), StepSize(f, r))
  }

  ghost function Denominator(f: Math, r: Rule, v: real): real {
    Times(f.Sqrt(v), r.bc2) + r.eps
  }

  ghost function StepSize(f: Math, r: Rule): real {
    f.Div(-r.alpha, r.bc1)
  }

  /** A product under a name of its own. */
  function Times(x: real, y: real): real {
    x * y
  }

  ghost function Adam(f: Math, r: Rule, grad: real, c: Cell): Cell {
    var g := Gradient(r, grad, c.param);
    var m := Average(r.beta1, c.momentum, g);
    var v := Average(r.beta2, c.variance, Times(g, g));
    Cell(Moved(f, r, Decayed(r, c.param), m, v), m, v)
  }

  function Pow(b: real, n: nat): real {
    if n == 0 then 1.0 else Pow(b, n - 1) * b
  }

  /** The powers of a number. */
  lemma {:induction false} PowAdds(b: real, m: nat, n: nat)
    ensures Pow(b, 1) == b && Pow(b, m + n) == Pow(b, m) * Pow(b, n)
  {
    assert Pow(b, 1) == Pow(b, 0) * b;
    if n > 0 {
      PowAdds(b, m, n - 1);
      assert Pow(b, m + n) == Pow(b, m + (n - 1)) * b;
    }
  }

  /** The rule of step number `step`, from the arguments of that step alone. */
  ghost function RuleOfStep(f: Math, lr: real, beta1: real, beta2: real, eps: real, weightDecay: real, adamw: bool,
                            biasCorrection: bool, step: nat): Rule
  {
    Rule(lr, beta1, beta2, eps, weightDecay, adamw,
         if biasCorrection then 1.0 - Pow(beta1, step) else 1.0,
         if biasCorrection then f.Div(1.0, f.Sqrt(1.0 - Pow(beta2, step))) else 1.0)
  }

  /** Division is division wherever that is defined. */
  ghost predicate TrueDivision(f: Math) {
    forall x, y :: y != 0.0 ==> f.Div(x, y) == x / y
  }

  lemma QuotientTimesQuotient(a: real, b: real, m: real, d: real)
    requires b != 0.0 && d != 0.0
    ensures (m / d) * (-a / b) == -(a * (m / b) / d)
  {
    var x, y, z := -a / b, m / d, m / b;
    var w := a * z / d;
    assert x * b == -a && y * d == m && z * b == m && w * d == a * z;
    assert (y * x + w) * (d * b) == (y * d) * (x * b) + (w * d) * b;
    assert (w * d) * b == a * (z * b);
    assert (y * x + w) * (d * b) == 0.0;
    NoZeroDivisors(y * x + w, d, b);
  }

  lemma NoZeroDivisors(e: real, d: real, b: real)
    requires e * (d * b) == 0.0 && d != 0.0 && b != 0.0
    ensures e == 0.0
  {
    var p := d * b;
    assert p / b == d;
    assert p != 0.0;
    assert e == (e * p) / p;
  }

  /** The arithmetic of one step written out: g is the gradient and p the parameter after the decay, m and v are the
      new averages. With Adam the decay is added to the gradient, with AdamW it shrinks the parameter; a decay that is
      not positive does nothing. */
  ghost predicate WrittenOut(lr: real, beta1: real, beta2: real, weightDecay: real, adamw: bool, grad: real, c: Cell,
                             g: real, p: real, m: real, v: real) {
    g == (if weightDecay > 0.0 && !adamw then grad + weightDecay * c.param else grad) &&
    p == (if weightDecay > 0.0 && adamw then c.param - lr * weightDecay * c.param else c.param) &&
    m == beta1 * c.momentum + (1.0 - beta1) * g &&
    v == beta2 * c.variance + (1.0 - beta2) * (g * g)
  }

  lemma StepFrom(f: Math, r: Rule, grad: real, c: Cell, g: real, p: real, m: real, v: real)
    requires WrittenOut(r.alpha, r.beta1, r.beta2, r.weightDecay, r.adamw, grad, c, g, p, m, v)
    ensures Adam(f, r, grad, c) == Cell(Moved(f, r, p, m, v), m, v)
  {
    hide Moved;
    assert Gradient(r, grad, c.param) == g && Decayed(r, c.param) == p;
    assert Average(r.beta1, c.momentum, g) == m;
    assert Times(g, g) == g * g;
    assert Average(r.beta2, c.variance, Times(g, g)) == v;
  }

  /** With bias correction the update is the published one: the parameter, decayed for AdamW, moves by
      -lr * mHat / (sqrt(v) / sqrt(1 - beta2^t) + eps), where mHat = m / (1 - beta1^t). */
  lemma PublishedForm(f: Math, lr: real, beta1: real, beta2: real, eps: real, weightDecay: real, adamw: bool, step: nat,
                      grad: real, c: Cell, g: real, p: real, m: real, v: real)
    requires TrueDivision(f) && 1.0 - Pow(beta1, step) != 0.0 && f.Sqrt(1.0 - Pow(beta2, step)) != 0.0
    requires WrittenOut(lr, beta1, beta2, weightDecay, adamw, grad, c, g, p, m, v)
    ensures
      var next := Adam(f, RuleOfStep(f, lr, beta1, beta2, eps, weightDecay, adamw, true, step), grad, c);
      var scale := f.Sqrt(v) / f.Sqrt(1.0 - Pow(beta2, step)) + eps;
      next.momentum == m && next.variance == v &&
      (scale != 0.0 ==> next.param == p - lr * (m / (1.0 - Pow(beta1, step))) / scale)
  {
    hide Pow, WrittenOut, Moved, Adam;
    var r := RuleOfStep(f, lr, beta1, beta2, eps, weightDecay, adamw, true, step);
    StepFrom(f, r, grad, c, g, p, m, v);
    var s, root := f.Sqrt(v), f.Sqrt(1.0 - Pow(beta2, step));
    OverRoot(s, root);
    assert r.bc2 == 1.0 / root;
    MoveIsPublished(f, r, p, Adam(f, r, grad, c), s, root);
  }

  /** Without bias correction the parameter, decayed for AdamW, moves by -lr * m / (sqrt(v) + eps), whatever the number
      of the step. */
  lemma PlainForm(f: Math, lr: real, beta1: real, beta2: real, eps: real, weightDecay: real, adamw: bool, step: nat,
                  grad: real, c: Cell, g: real, p: real, m: real, v: real)
    requires TrueDivision(f) && WrittenOut(lr, beta1, beta2, weightDecay, adamw, grad, c, g, p, m, v)
    ensures
      var next := Adam(f, RuleOfStep(f, lr, beta1, beta2, eps, weightDecay, adamw, false, step), grad, c);
      next.momentum == m && next.variance == v &&
      (f.Sqrt(v) + eps != 0.0 ==> next.param == p - lr * m / (f.Sqrt(v) + eps))
  {
    hide WrittenOut, Moved, Adam;
    var r := RuleOfStep(f, lr, beta1, beta2, eps, weightDecay, adamw, false, step);
    StepFrom(f, r, grad, c, g, p, m, v);
    var s := f.Sqrt(v);
    assert m / 1.0 == m && s / 1.0 == s && s * r.bc2 == s / 1.0;
    MoveIsPublished(f, r, p, Adam(f, r, grad, c), s, 1.0);
  }

  lemma MoveIsPublished(f: Math, r: Rule, p: real, next: Cell, s: real, root: real)
    requires TrueDivision(f) && r.bc1 != 0.0 && root != 0.0 && s == f.Sqrt(next.variance) && s * r.bc2 == s / root
    requires next.param == Moved(f, r, p, next.momentum, next.variance)
    ensures s / root + r.eps != 0.0 ==> next.param == p - r.alpha * (next.momentum / r.bc1) / (s / root + r.eps)
  {
    var scale := s / root + r.eps;
    assert StepSize(f, r) == -r.alpha / r.bc1;
    assert Denominator(f, r, next.variance) == scale;
    if scale != 0.0 {
      assert f.Div(next.momentum, scale) == next.momentum / scale;
      QuotientTimesQuotient(r.alpha, r.bc1, next.momentum, scale);
    }
  }

  lemma OverRoot(s: real, root: real)
    requires root != 0.0
    ensures s * (1.0 / root) == s / root
  {
    var x, y := 1.0 / root, s / root;
    assert x * root == 1.0 && y * root == s;
    assert (s * x) * root == s;
  }
}
