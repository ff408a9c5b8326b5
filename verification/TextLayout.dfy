/** Text in fields of a given width, as printf lays it out. */
module TextLayout {
  import opened CText

  function Spaces(n: nat): (s: string)
    ensures |s| == n
  {
    if n == 0 then "" else " " + Spaces(n - 1)
  }

  /** printf with `%-*s`. */
  function Padded(s: string, width: nat): string {
    if |s| < width then s + Spaces(width - |s|) else s
  }

  lemma {:induction false} SpacesAreBlank(n: nat)
    ensures forall k | 0 <= k < n :: Spaces(n)[k] == ' '
  {
    if n == 0 {
    } else {
      SpacesAreBlank(n - 1);
    }
  }

  predicate AllBlank(s: string) {
    forall k | 0 <= k < |s| :: s[k] == ' '
  }

  /** The text is `p`, the name, blanks and `q`. */
  ghost predicate FilledUp(t: string, p: string, name: string, blanks: string, q: string) {
    t == p + ((name + blanks) + q) && AllBlank(blanks)
  }

  /** The name stands at `at`, and blanks behind it fill a field of `width` bytes. */
  ghost predicate InField(t: string, at: nat, name: string, width: nat) {
    exists p: string, blanks: string, q: string ::
      FilledUp(t, p, name, blanks, q) && |p| == at && |name| + |blanks| == width
  }

  /** What `%-*s` prints: the text on the left, blanks on the right. */
  lemma PaddedInField(p: string, s: string, width: nat, q: string)
    requires |s| <= width
    ensures InField(p + (Padded(s, width) + q), |p|, s, width)
  {
    var blanks := Spaces(width - |s|);
    SpacesAreBlank(width - |s|);
    assert s + "" == s;
    assert Padded(s, width) == s + blanks;
    assert FilledUp(p + (Padded(s, width) + q), p, s, blanks, q);
  }
}
