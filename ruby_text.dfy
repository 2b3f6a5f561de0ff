/** The pieces of Ruby's String behaviour the client relies on: `split` with a
    one-character separator followed by `last` (how an order id is taken from a
    `Location` header), `present?` (how `update_order` decides whether an order
    already has an id) and string interpolation of a value that may be `nil`. */
module RubyText {
  import opened Outcomes

  /** Every field of `s` between occurrences of `sep`, empty fields included
      (what Ruby's `s.split(sep, -1)` returns, except that Ruby gives `[]` for ""). */
  function Fields(s: string, sep: char): (r: seq<string>)
    ensures |r| >= 1
    ensures forall i :: 0 <= i < |r| ==> sep !in r[i]
    decreases |s|
  {
    if s == [] then [[]]
    else
      var rest := Fields(s[1..], sep);
      if s[0] == sep then [[]] + rest
      else [[s[0]] + rest[0]] + rest[1..]
  }

  /** The fields put back together, `sep` between each two of them. */
  function Join(fs: seq<string>, sep: char): string
    requires |fs| >= 1
    decreases |fs|
  {
    if |fs| == 1 then fs[0] else fs[0] + [sep] + Join(fs[1..], sep)
  }

  /** Ruby's `split` without a limit drops the empty fields at the end. */
  function DropTrailingEmpty(fs: seq<string>): (r: seq<string>)
    ensures r <= fs
    ensures r == [] || r[|r| - 1] != []
    ensures forall i :: |r| <= i < |fs| ==> fs[i] == []
    decreases |fs|
  {
    if fs == [] then []
    else if fs[|fs| - 1] == [] then DropTrailingEmpty(fs[..|fs| - 1])
    else fs
  }

  /** `s.split(sep)` for a one-character separator other than a space. */
  function Split(s: string, sep: char): seq<string>
  {
    DropTrailingEmpty(Fields(s, sep))
  }

  /** `location.split('/').last`: `None` stands for the `nil` that `last`
      gives when the split is empty. */
  function LastSegment(location: string): (r: Option<string>)
    ensures r.Some? ==> r.value != [] && '/' !in r.value
    ensures r.Some? ==> r.value in Fields(location, '/')
  {
    var parts := Split(location, '/');
    if parts == [] then None else Some(parts[|parts| - 1])
  }

  lemma {:induction false} JoinFields(s: string, sep: char)
    ensures Join(Fields(s, sep), sep) == s
    decreases |s|
  {
    if s != [] {
      var rest := Fields(s[1..], sep);
      JoinFields(s[1..], sep);
      if s[0] == sep {
        assert Fields(s, sep) == [[]] + rest;
        assert ([[]] + rest)[1..] == rest;
      } else {
        var fs := Fields(s, sep);
        assert fs == [[s[0]] + rest[0]] + rest[1..];
        if |rest| == 1 {
          assert s == [s[0]] + s[1..];
        } else {
          assert fs[1..] == rest[1..];
          assert Join(rest, sep) == rest[0] + [sep] + Join(rest[1..], sep);
          assert s == [s[0]] + s[1..];
        }
      }
    }
  }

  lemma {:induction false} FieldsWithoutSep(s: string, sep: char)
    requires sep !in s
    ensures Fields(s, sep) == [s]
    decreases |s|
  {
    if s != [] {
      FieldsWithoutSep(s[1..], sep);
      assert s == [s[0]] + s[1..];
    }
  }

  lemma {:induction false} FieldsAround(a: string, sep: char, b: string)
    ensures Fields(a + [sep] + b, sep) == Fields(a, sep) + Fields(b, sep)
    decreases |a|
  {
    var s := a + [sep] + b;
    if a == [] {
      assert s[1..] == b;
    } else {
      assert s[0] == a[0];
      assert s[1..] == a[1..] + [sep] + b;
      FieldsAround(a[1..], sep, b);
    }
  }

  /** Splitting undoes joining when no field holds the separator. */
  lemma {:induction false} FieldsJoin(fs: seq<string>, sep: char)
    requires |fs| >= 1
    requires forall i :: 0 <= i < |fs| ==> sep !in fs[i]
    ensures Fields(Join(fs, sep), sep) == fs
    decreases |fs|
  {
    if |fs| == 1 {
      FieldsWithoutSep(fs[0], sep);
    } else {
      FieldsWithoutSep(fs[0], sep);
      FieldsJoin(fs[1..], sep);
      FieldsAround(fs[0], sep, Join(fs[1..], sep));
      assert fs == [fs[0]] + fs[1..];
    }
  }

  predicate AllEmpty(fs: seq<string>) {
    forall i :: 0 <= i < |fs| ==> fs[i] == []
  }

  predicate AllSep(s: string, sep: char) {
    forall i :: 0 <= i < |s| ==> s[i] == sep
  }

  lemma {:induction false} FieldsAllEmpty(s: string, sep: char)
    ensures AllEmpty(Fields(s, sep)) <==> AllSep(s, sep)
    decreases |s|
  {
    if s != [] {
      FieldsAllEmpty(s[1..], sep);
      var rest := Fields(s[1..], sep);
      var fs := Fields(s, sep);
      if s[0] == sep {
        assert fs == [[]] + rest;
        assert AllEmpty(fs) <==> AllEmpty(rest) by {
          assert fs[0] == [];
          assert forall i :: 1 <= i < |fs| ==> fs[i] == rest[i - 1];
          assert forall i :: 0 <= i < |rest| ==> rest[i] == fs[i + 1];
        }
        assert AllSep(s, sep) <==> AllSep(s[1..], sep) by {
          assert forall i :: 1 <= i < |s| ==> s[i] == s[1..][i - 1];
        }
      } else {
        assert fs[0] != [];
      }
    }
  }

  /** `split('/').last` is `nil` exactly for a header made of slashes only
      (the empty header included). */
  lemma LastSegmentNil(location: string)
    ensures LastSegment(location).None? <==> AllSep(location, '/')
  {
    FieldsAllEmpty(location, '/');
  }

  /** A trailing `/` changes nothing: Ruby's `split` drops the empty field it
      leaves, so `.../orders/abc/` yields "abc" as `.../orders/abc` does. */
  lemma LastSegmentTrailingSlash(s: string)
    ensures LastSegment(s + "/") == LastSegment(s)
  {
    FieldsAround(s, '/', "");
    assert s + "/" == s + ['/'] + "";
    var fs := Fields(s, '/');
    assert (fs + [[]])[..|fs + [[]]| - 1] == fs;
  }

  /** The id at the end of a resource URL is what `split('/').last` recovers. */
  lemma LastSegmentOfUrl(prefix: string, id: string)
    requires id != [] && '/' !in id
    ensures LastSegment(prefix + "/" + id) == Some(id)
  {
    FieldsAround(prefix, '/', id);
    FieldsWithoutSep(id, '/');
    var fs := Fields(prefix + "/" + id, '/');
    assert fs[|fs| - 1] == id;
  }

  /** The characters Ruby's `[[:space:]]` matches (Onigmo, Unicode strings). */
  predicate IsSpace(c: char) {
    c == ' ' || ('\t' <= c <= '\r') || c == '\U{0085}' || c == '\U{00A0}'
    || c == '\U{1680}' || ('\U{2000}' <= c <= '\U{200A}') || c == '\U{2028}'
    || c == '\U{2029}' || c == '\U{202F}' || c == '\U{205F}' || c == '\U{3000}'
  }

  /** ActiveSupport's `String#blank?`: empty or whitespace only. */
  predicate Blank(s: string) {
    forall i :: 0 <= i < |s| ==> IsSpace(s[i])
  }

  /** ActiveSupport's `present?` on a String that may be `nil`. */
  function Present(v: Option<string>): (r: bool)
    ensures r <==> v.Some? && exists i :: 0 <= i < |v.value| && !IsSpace(v.value[i])
  {
    v.Some? && !Blank(v.value)
  }

  /** `"#{v}"` for a String that may be `nil`: `nil` interpolates as "". */
  function Interpolate(v: Option<string>): string
  {
    v.GetOr("")
  }
}
