/** The names TcpServer gives its connections, which are the keys of its map. */
module ConnectionNames {
  import opened Digits

  // The buffer of newConnection, terminating NUL included.
  const BUFFER := 32

  /** What snprintf leaves in the buffer. */
  function Fitted(s: string): string {
    if |s| < BUFFER then s else s[..BUFFER - 1]
  }

  function Suffix(hostport: string, id: nat): string {
    ":" + hostport + "#" + Decimal(id)
  }

  function Name(server: string, hostport: string, id: nat): string {
    server + Fitted(Suffix(hostport, id))
  }

  /** The parts of a name stand where their lengths say. */
  lemma Parts(a: string, b: string, c: string)
    ensures var s, k := a + (":" + b + "#" + c), |a| + 1 + |b|;
            && s[..|a|] == a && s[|a|] == ':' && s[|a| + 1..k] == b && s[k] == '#' && s[k + 1..] == c
  {
    Second(a, ":" + b + "#" + c);
    assert ":" + b + "#" + c == ":" + (b + ("#" + c));
    Second(":", b + ("#" + c));
    Second(b, "#" + c);
  }

  lemma Second(a: string, b: string)
    ensures (a + b)[..|a|] == a && (a + b)[|a|..] == b
    ensures forall i, j | 0 <= i <= j <= |b| :: (a + b)[|a| + i..|a| + j] == b[i..j]
  {
  }

  /**
   A name that fits is the server's name, a colon, the host and port, a number sign and the id, each of which can be
   read back from it; of any other, all but the first 31 characters after the server's name are lost.
   */
  lemma NameReadsBack(server: string, hostport: string, id: nat)
    ensures var name, colon := Name(server, hostport, id), |server|;
            var number := colon + 1 + |hostport|;
            if |hostport| + |Decimal(id)| <= 29 then
              && number + 1 < |name| <= colon + 31
              && name[..colon] == server && name[colon] == ':'
              && name[colon + 1..number] == hostport && name[number] == '#'
              && ReadDecimal(name[number + 1..]) == id
            else name == server + (":" + hostport + "#" + Decimal(id))[..31]
  {
    DecimalRead(id);
    DecimalLonger(id, id);
    hide Decimal, ReadDecimal;
    if |hostport| + |Decimal(id)| <= 29 {
      Parts(server, hostport, Decimal(id));
    }
  }

  /** Whether the names of ids 1 to n all fit, judged by the last; a single id has nothing to collide with. */
  predicate Fits(hostport: string, n: nat) {
    n < 2 || |hostport| + |Decimal(n)| <= 29
  }

  ghost predicate AllDistinct(server: string, hostport: string, n: nat) {
    forall i: nat, j: nat | 1 <= i < j <= n :: Name(server, hostport, i) != Name(server, hostport, j)
  }

  lemma DecimalInjective(i: nat, j: nat)
    requires Decimal(i) == Decimal(j)
    ensures i == j
  {
    DecimalRead(i);
    DecimalRead(j);
  }

  lemma DecimalLonger(i: nat, j: nat)
    requires i <= j
    ensures 1 <= |Decimal(i)| <= |Decimal(j)|
  {
    var k := |Decimal(j)|;
    NumeralShape(i, 10);
    NumeralShape(j, 10);
    NumeralLength(j, 10, k);
    NumeralLength(i, 10, k);
  }

  lemma DecimalOf(id: nat)
    ensures id < 10 ==> |Decimal(id)| == 1
    ensures id >= 10 ==> Decimal(id) == Decimal(id / 10) + [DigitChar(id % 10)]
  {
    NumeralStep(id, 10);
  }

  lemma FittingNamesDiffer(server: string, hostport: string, i: nat, j: nat)
    requires |hostport| + |Decimal(i)| <= 29 && |hostport| + |Decimal(j)| <= 29 && i != j
    ensures Name(server, hostport, i) != Name(server, hostport, j)
  {
    var a, b := Suffix(hostport, i), Suffix(hostport, j);
    if Name(server, hostport, i) == Name(server, hostport, j) {
      assert a == Name(server, hostport, i)[|server|..] && b == Name(server, hostport, j)[|server|..];
      assert Decimal(i) == a[|hostport| + 2..] && Decimal(j) == b[|hostport| + 2..];
      DecimalInjective(i, j);
    }
  }

  /** A buffer that is full before the digits begin names every connection alike. */
  lemma NoRoomForDigits(server: string, hostport: string, i: nat, j: nat)
    requires |hostport| >= 29
    ensures Name(server, hostport, i) == Name(server, hostport, j)
  {
    DecimalLonger(i, i);
    DecimalLonger(j, j);
    assert Fitted(Suffix(hostport, i)) == (":" + hostport + "#")[..31] == Fitted(Suffix(hostport, j));
  }

  /** An id whose last digit alone is cut off gets the name of its tenth. */
  lemma LastDigitCut(server: string, hostport: string, id: nat)
    requires id >= 10 && |hostport| + |Decimal(id)| == 30
    ensures Name(server, hostport, id) == Name(server, hostport, id / 10)
  {
    DecimalOf(id);
    assert Suffix(hostport, id) == Suffix(hostport, id / 10) + [DigitChar(id % 10)];
  }

  /** Where the names do not all fit, two of them are the same. */
  lemma {:induction false} Collision(server: string, hostport: string, n: nat) returns (i: nat, j: nat)
    requires !Fits(hostport, n)
    ensures 1 <= i < j <= n && Name(server, hostport, i) == Name(server, hostport, j)
    decreases n
  {
    DecimalOf(n);
    if |hostport| >= 29 {
      NoRoomForDigits(server, hostport, 1, 2);
      i, j := 1, 2;
    } else if |hostport| + |Decimal(n)| == 30 {
      LastDigitCut(server, hostport, n);
      i, j := n / 10, n;
    } else {
      DecimalOf(n / 10);
      i, j := Collision(server, hostport, n / 10);
    }
  }

  lemma NamesDiffer(server: string, hostport: string, n: nat, i: nat, j: nat)
    requires Fits(hostport, n) && 1 <= i < j <= n
    ensures Name(server, hostport, i) != Name(server, hostport, j)
  {
    DecimalLonger(i, n);
    DecimalLonger(j, n);
    FittingNamesDiffer(server, hostport, i, j);
  }

  /** The names of connections 1 to n are pairwise distinct exactly when the n-th fits the buffer. */
  lemma NamesDistinctExactly(server: string, hostport: string, n: nat)
    ensures AllDistinct(server, hostport, n) <==> Fits(hostport, n)
  {
    hide Name, Decimal;
    if Fits(hostport, n) {
      forall i: nat, j: nat | 1 <= i < j <= n
        ensures Name(server, hostport, i) != Name(server, hostport, j)
      {
        NamesDiffer(server, hostport, n, i, j);
      }
    } else {
      var i, j := Collision(server, hostport, n);
    }
  }

  lemma {:induction false} FitsEarlier(hostport: string, m: nat, n: nat)
    requires Fits(hostport, n) && m <= n
    ensures Fits(hostport, m)
  {
    DecimalLonger(m, n);
  }

  /** An IPv4 host and port take at most 21 characters, which leaves room for 99,999,999 connections. */
  lemma Ipv4NamesDistinct(server: string, hostport: string)
    requires |hostport| <= 21
    ensures AllDistinct(server, hostport, 99_999_999)
  {
    assert Power(10, 4) == 10_000;
    PowerAdd(10, 4, 4);
    NumeralLength(99_999_999, 10, 8);
    NamesDistinctExactly(server, hostport, 99_999_999);
  }
}
