/** The input file names the script tries, in order: `messages.html`, then
    `messages{k}.html` for k = 2, 3, ... (colemak_telegram_analysis.py:167, :177-178). */
module FileNames {
  import opened Decimal

  /** The `k`-th file name tried. */
  function FileName(k: nat): (name: string)
    requires k >= 1
    ensures |name| >= 13
    ensures name[..8] == "messages"
  {
    if k == 1 then "messages.html" else "messages" + Digits(k) + ".html"
  }

  /** No name is tried twice. */
  lemma FileNamesDiffer(j: nat, k: nat)
    requires j >= 1 && k >= 1 && j != k
    ensures FileName(j) != FileName(k)
  {
    var a, b := FileName(j), FileName(k);
    if j == 1 {
      assert a[8] != b[8] == Digits(k)[0];
    } else if k == 1 {
      assert a[8] == Digits(j)[0] != b[8];
    } else if |a| == |b| {
      assert a[8..|a| - 5] == Digits(j);
      assert b[8..|b| - 5] == Digits(k);
      DigitsInjective(j, k);
    }
  }

  /** The names tried before the `k`-th. */
  function NamesBefore(k: nat): set<string>
    requires k >= 1
  {
    if k == 1 then {} else NamesBefore(k - 1) + {FileName(k - 1)}
  }

  /** A name is never among those tried before it. */
  lemma {:induction false} NotTriedBefore(k: nat, m: nat)
    requires 1 <= k <= m
    ensures FileName(m) !in NamesBefore(k)
  {
    if k > 1 {
      NotTriedBefore(k - 1, m);
      FileNamesDiffer(k - 1, m);
    }
  }

  /** Each name found brings the loop closer to its end: fewer existing names
      remain untried. */
  lemma UntriedShrinks(names: set<string>, k: nat)
    requires k >= 1 && FileName(k) in names
    ensures |names - NamesBefore(k + 1)| < |names - NamesBefore(k)|
  {
    var n := FileName(k);
    NotTriedBefore(k, k);
    assert names - NamesBefore(k + 1) == (names - NamesBefore(k)) - {n};
    assert n in names - NamesBefore(k);
  }
}
