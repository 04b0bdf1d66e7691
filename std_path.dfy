/** `std::path::Path::join` on Unix paths, as Strings: joining an absolute
    part replaces the base; otherwise a `/` separator is inserted unless the
    base is empty or already ends with one. `to_string_lossy` is the
    identity on the strings modelled here. */
module StdPath {

  function Join(base: string, part: string): (r: string)
  {
    if |part| > 0 && part[0] == '/' then part
    else if |base| == 0 || base[|base| - 1] == '/' then base + part
    else base + "/" + part
  }

  /** Successive joins, `full_path = full_path.join(part)` for each part in turn. */
  function JoinAll(base: string, parts: seq<string>): string
  {
    if parts == [] then base else Join(JoinAll(base, parts[..|parts| - 1]), parts[|parts| - 1])
  }

  /** The parts as nested directory names: `/p0/p1/...`. */
  function Nested(parts: seq<string>): string
  {
    if parts == [] then [] else Nested(parts[..|parts| - 1]) + "/" + parts[|parts| - 1]
  }

  /** A directory name: non-empty and free of separators. */
  predicate IsName(part: string) {
    part != [] && '/' !in part
  }

  /** Joining names onto a base that does not end in a separator nests them in order. */
  lemma {:induction false} JoinAllNested(base: string, parts: seq<string>)
    requires base != [] && base[|base| - 1] != '/'
    requires forall k :: 0 <= k < |parts| ==> IsName(parts[k])
    ensures JoinAll(base, parts) == base + Nested(parts)
  {
    if parts != [] {
      var init := parts[..|parts| - 1];
      var last := parts[|parts| - 1];
      JoinAllNested(base, init);
      var prefix := base + Nested(init);
      assert prefix[|prefix| - 1] != '/' by {
        if init == [] {
          assert prefix == base;
        } else {
          assert init[|init| - 1] == parts[|parts| - 2] && IsName(parts[|parts| - 2]);
          assert prefix[|prefix| - 1] == init[|init| - 1][|init[|init| - 1]| - 1];
        }
      }
      assert last[0] != '/' by { assert IsName(parts[|parts| - 1]); }
    }
  }

  /** Two names joined onto such a base. */
  lemma JoinTwo(base: string, x: string, y: string)
    requires base != [] && base[|base| - 1] != '/'
    requires IsName(x) && IsName(y)
    ensures JoinAll(base, [x, y]) == base + "/" + x + "/" + y
  {
    JoinAllSnoc(base, [], x);
    JoinName(base, x);
    var first := base + "/" + x;
    JoinAllSnoc(base, [x], y);
    assert [x] + [y] == [x, y];
    JoinName(first, y);
  }

  lemma JoinAllSnoc(base: string, parts: seq<string>, part: string)
    ensures JoinAll(base, parts + [part]) == Join(JoinAll(base, parts), part)
  {
    assert (parts + [part])[..|parts|] == parts;
  }

  /** A name joined onto a base that does not end in a separator. */
  lemma JoinName(base: string, part: string)
    requires base != [] && base[|base| - 1] != '/'
    requires IsName(part)
    ensures Join(base, part) == base + "/" + part
    ensures var r := base + "/" + part; r[|r| - 1] != '/'
  {
    assert part[0] in part && part[|part| - 1] in part;
  }

  lemma Regroup(a: string, b: string, c: string)
    ensures a + (b + c) == a + b + c
  {
  }
}
