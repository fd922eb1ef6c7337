/** The market-status line of the index header: the scraped status of the
    first index decides between "AT CLOSE" and "AT OPEN". */
module MarketStatus {

  const AtCloseLine: string := "Market Status: AT CLOSE"
  const AtOpenLine: string := "Market Status: AT OPEN"
  const AtClose: string := "AT CLOSE"

  /** Upper-casing of ASCII letters; every other character is unchanged. */
  function UpperAscii(c: char): char {
    if 'a' <= c <= 'z' then (c as int - 32) as char else c
  }

  function Upper(s: string): (r: string)
    ensures |r| == |s| && forall i :: 0 <= i < |s| ==> r[i] == UpperAscii(s[i])
  {
    seq(|s|, i requires 0 <= i < |s| => UpperAscii(s[i]))
  }

  /** The market-status line: "AT CLOSE" when the first eight characters of
      the scraped status read "AT CLOSE" in any letter case. */
  function MarketStatusLine(status: string): (r: string)
    ensures r == AtCloseLine || r == AtOpenLine
    ensures r == AtCloseLine <==>
              |status| >= |AtClose| && forall i :: 0 <= i < |AtClose| ==> UpperAscii(status[i]) == AtClose[i]
  {
    var prefix := if |status| <= 8 then status else status[..8];
    if Upper(prefix) == AtClose then AtCloseLine else AtOpenLine
  }
}
