/**
 * Extraction of the tunnel address from the management line that reports
 * the connection, e.g. `>STATE:1,CONNECTED,SUCCESS,10.8.0.5,1.2.3.4,1194`.
 */
module Address {
  import opened Wrappers
  import opened Text

  /** The marker OpenVPN prints once the tunnel is up. */
  const ConnectedMarker: string := "CONNECTED,SUCCESS"

  /**
   * `findNetInterfaceIpddress`: the third comma-separated field of the text
   * that starts at the LAST occurrence of the marker; `None` (Java `null`)
   * when the marker is absent or when Java's `split` leaves fewer than three
   * fields (the `IndexOutOfBoundsException` is caught and logged).
   */
  function FindNetInterfaceIpAddress(line: string): (address: Option<string>)
    ensures !Contains(line, ConnectedMarker) ==> address == None
    ensures address.Some? ==> Contains(line, ConnectedMarker) && ',' !in address.value
  {
    var index := LastIndexOf(line, ConnectedMarker);
    if index == -1 then None
    else
      var parts := JavaSplit(line[index..]);
      if |parts| > 2 then Some(parts[2]) else None
  }

  /**
   * An occurrence of the marker is the last one when what follows it does
   * not start with `C` and, after its first character, holds no occurrence:
   * the marker can overlap itself only at its start.
   */
  lemma MarkerIsLast(p: string, t: string)
    requires t == [] || (t[0] != 'C' && !Contains(t[1..], ConnectedMarker))
    ensures LastIndexOf(p + ConnectedMarker + t, ConnectedMarker) == |p|
  {
    MarkerShape();
    NoLaterOccurrence(p, ConnectedMarker, t);
  }

  /** The marker starts with `CO`, and inside it a `C` is never followed by an `O`. */
  lemma MarkerShape()
    ensures |ConnectedMarker| >= 2 && ConnectedMarker[0] == 'C' && ConnectedMarker[1] == 'O'
    ensures forall d :: 1 <= d < |ConnectedMarker| && ConnectedMarker[d] == 'C' ==>
      d + 1 < |ConnectedMarker| && ConnectedMarker[d + 1] != 'O'
  {
  }

  /** The argument of MarkerIsLast for any marker that starts with `CO` and has no other `CO` inside. */
  lemma NoLaterOccurrence(p: string, m: string, t: string)
    requires |m| >= 2 && m[0] == 'C' && m[1] == 'O'
    requires forall d :: 1 <= d < |m| && m[d] == 'C' ==> d + 1 < |m| && m[d + 1] != 'O'
    requires t == [] || (t[0] != 'C' && !Contains(t[1..], m))
    ensures LastIndexOf(p + m + t, m) == |p|
  {
    var line := p + m + t;
    assert forall k :: 0 <= k < |m| ==> line[|p| + k] == m[k];
    assert OccursAt(line, m, |p|) by { assert line[|p|..|p| + |m|] == m; }
    forall j | |p| < j ensures !OccursAt(line, m, j) {
      if j + |m| <= |line| {
        assert line[j..j + |m|][0] == line[j] && line[j..j + |m|][1] == line[j + 1];
        if j < |p| + |m| {
          assert line[j] == m[j - |p|];
          if m[j - |p|] == 'C' {
            assert line[j + 1] == m[j - |p| + 1];
          }
        } else if j == |p| + |m| {
          assert line[j] == t[0];
        } else {
          var u := t[1..];
          var i := j - |p| - |m| - 1;
          assert line[j..j + |m|] == u[i..i + |m|];
          if OccursAt(line, m, j) {
            assert OccursAt(u, m, i);
            assert false;
          }
        }
      }
    }
  }

  /**
   * The address is the field right after the marker: in
   * `p + "CONNECTED,SUCCESS," + a + rest`, with `a` a non-empty field that
   * ends at a comma or at the end of the line and no later marker, the
   * result is `a`.
   */
  lemma AddressAfterMarker(p: string, a: string, rest: string)
    requires a != "" && ',' !in a
    requires rest == "" || rest[0] == ','
    requires !Contains(a + rest, ConnectedMarker)
    ensures FindNetInterfaceIpAddress(p + ConnectedMarker + "," + a + rest) == Some(a)
  {
    var line := p + ConnectedMarker + "," + a + rest;
    var t := "," + a + rest;
    assert line == p + ConnectedMarker + t;
    assert line[|p|..] == ConnectedMarker + t;
    assert t[1..] == a + rest;
    MarkerIsLast(p, t);
    ThirdFieldAfterMarker(a, rest);
    AddressFromSuffix(line, |p|, a);
  }

  /** The result read off the suffix that starts at the last marker. */
  lemma AddressFromSuffix(line: string, index: int, a: string)
    requires 0 <= index <= |line| && LastIndexOf(line, ConnectedMarker) == index
    requires |JavaSplit(line[index..])| > 2 && JavaSplit(line[index..])[2] == a
    ensures FindNetInterfaceIpAddress(line) == Some(a)
  {
  }

  /** After the marker and a comma, the third field is the comma-free field that follows. */
  lemma ThirdFieldAfterMarker(a: string, rest: string)
    requires a != "" && ',' !in a
    requires rest == "" || rest[0] == ','
    ensures |JavaSplit(ConnectedMarker + ("," + a + rest))| > 2
    ensures JavaSplit(ConnectedMarker + ("," + a + rest))[2] == a
  {
    var s := ConnectedMarker + ("," + a + rest);
    assert s == ConnectedMarker + "," + (a + rest);
    SplitAfterMarker(a + rest);
    FirstField(a, rest);
    ThirdFieldKept(s);
  }

  /** The marker is the two comma-free fields `CONNECTED` and `SUCCESS`. */
  lemma MarkerFields()
    ensures ConnectedMarker == "CONNECTED" + "," + "SUCCESS"
    ensures ',' !in "CONNECTED" && ',' !in "SUCCESS"
  {
  }

  /** Splitting two comma-free fields, a comma and `x`. */
  lemma TwoFields(c: string, d: string, x: string)
    requires ',' !in c && ',' !in d
    ensures SplitAll(c + "," + d + "," + x) == [c, d] + SplitAll(x)
  {
    assert c + "," + d + "," + x == c + "," + (d + "," + x);
    SplitAllField(c, d + "," + x);
    SplitAllField(d, x);
  }

  /** Splitting the marker, a comma and `x` yields `CONNECTED`, `SUCCESS` and the fields of `x`. */
  lemma SplitAfterMarker(x: string)
    ensures SplitAll(ConnectedMarker + "," + x) == ["CONNECTED", "SUCCESS"] + SplitAll(x)
  {
    MarkerFields();
    TwoFields("CONNECTED", "SUCCESS", x);
  }

  /** The bare marker splits into its two fields. */
  lemma SplitMarker()
    ensures SplitAll(ConnectedMarker) == ["CONNECTED", "SUCCESS"]
  {
    MarkerFields();
    SplitAllField("CONNECTED", "SUCCESS");
  }

  /** A comma-free field ended by a comma or by the end of the text is the first field. */
  lemma FirstField(a: string, rest: string)
    requires ',' !in a
    requires rest == "" || rest[0] == ','
    ensures SplitAll(a + rest)[0] == a
  {
    if rest == "" {
      assert a + rest == a;
    } else {
      assert a + rest == a + "," + rest[1..];
      SplitAllField(a, rest[1..]);
    }
  }

  /** Java's `split` keeps every field up to a non-empty third one. */
  lemma ThirdFieldKept(s: string)
    requires |SplitAll(s)| > 2 && SplitAll(s)[2] != ""
    ensures |JavaSplit(s)| > 2 && JavaSplit(s)[2] == SplitAll(s)[2]
  {
  }

  /** Java's `split` drops every field from the `n`-th on when all of them are empty. */
  lemma EmptyTailDropped(s: string, n: nat)
    requires ',' in s
    requires forall k :: n <= k < |SplitAll(s)| ==> SplitAll(s)[k] == ""
    ensures |JavaSplit(s)| <= n
  {
  }

  /**
   * When only commas follow the last marker, Java's `split` leaves two
   * fields and the result is `None`, without an exception escaping.
   */
  lemma NoAddressAfterMarker(p: string, t: string)
    requires forall k :: 0 <= k < |t| ==> t[k] == ','
    ensures FindNetInterfaceIpAddress(p + ConnectedMarker + t) == None
  {
    var line := p + ConnectedMarker + t;
    if t != [] {
      assert 'C' !in t[1..] by {
        forall k | 0 <= k < |t[1..]| ensures t[1..][k] != 'C' {
          assert t[1..][k] == t[k + 1];
        }
      }
      NoMarkerWithoutC(t[1..]);
    }
    MarkerIsLast(p, t);
    assert line[|p|..] == ConnectedMarker + t;
    CommasAfterMarker(t);
    NoAddressFromSuffix(line, |p|);
  }

  /** The result read off a suffix that splits into at most two fields. */
  lemma NoAddressFromSuffix(line: string, index: int)
    requires 0 <= index <= |line| && LastIndexOf(line, ConnectedMarker) == index
    requires |JavaSplit(line[index..])| <= 2
    ensures FindNetInterfaceIpAddress(line) == None
  {
  }

  /** The marker followed by commas only splits into at most two fields. */
  lemma CommasAfterMarker(t: string)
    requires forall k :: 0 <= k < |t| ==> t[k] == ','
    ensures |JavaSplit(ConnectedMarker + t)| <= 2
  {
    var s := ConnectedMarker + t;
    assert forall k :: 2 <= k < |SplitAll(s)| ==> SplitAll(s)[k] == "" by {
      if t == [] {
        assert s == ConnectedMarker;
        SplitMarker();
      } else {
        assert s == ConnectedMarker + "," + t[1..];
        SplitAfterMarker(t[1..]);
        SplitAllCommas(t[1..]);
      }
    }
    assert ',' in s by {
      MarkerFields();
      assert s[9] == ConnectedMarker[9] == ',';
    }
    EmptyTailDropped(s, 2);
  }

  /** A line without an upper-case `C` cannot contain the marker. */
  lemma NoMarkerWithoutC(line: string)
    requires 'C' !in line
    ensures !Contains(line, ConnectedMarker)
  {
    forall i | 0 <= i <= |line| ensures !OccursAt(line, ConnectedMarker, i) {
      if i + |ConnectedMarker| <= |line| {
        assert line[i..i + |ConnectedMarker|][0] == line[i];
      }
    }
  }

  /** A status line as OpenVPN prints it yields the address field. */
  lemma ExampleAddress()
    ensures FindNetInterfaceIpAddress("Tue Jan 1 00:00:00 2020 " + ConnectedMarker + "," + "10.8.0.5" + ",1194")
         == Some("10.8.0.5")
  {
    NoMarkerWithoutC("10.8.0.5" + ",1194");
    AddressAfterMarker("Tue Jan 1 00:00:00 2020 ", "10.8.0.5", ",1194");
  }

  /** The bare marker, and the marker with a trailing comma, yield no address. */
  lemma ExampleNoAddress()
    ensures FindNetInterfaceIpAddress(ConnectedMarker) == None
    ensures FindNetInterfaceIpAddress(ConnectedMarker + ",") == None
  {
    NoAddressAfterMarker("", "");
    assert "" + ConnectedMarker + "" == ConnectedMarker;
    NoAddressAfterMarker("", ",");
    assert "" + ConnectedMarker + "," == ConnectedMarker + ",";
  }
}
