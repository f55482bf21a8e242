/**
  The rolling input buffer: the helpers that append to it, shorten it and
  trim it, and the window of recent characters it keeps.
 */
module InputBuffer {
  import opened Strings

  /** Plain Backspace: drop `amount` characters from the end; a negative end index is clamped to zero. */
  function ShortenBy(buffer: string, amount: nat): (r: string)
    ensures r <= buffer
    ensures |r| == if amount <= |buffer| then |buffer| - amount else 0
  {
    buffer[..if amount <= |buffer| then |buffer| - amount else 0]
  }

  /** Drop the oldest character once the buffer has grown past `bufferLength`; only one is ever dropped. */
  function ShortenIfNecessary(buffer: string, bufferLength: nat): (r: string)
    ensures EndsWith(buffer, r)
    ensures |buffer| > bufferLength ==> |r| == |buffer| - 1
    ensures |buffer| <= bufferLength ==> r == buffer
    ensures |buffer| <= bufferLength + 1 ==> |r| <= bufferLength
  {
    if |buffer| > bufferLength then buffer[1..] else buffer
  }

  /** The last `min(|x|, n)` characters of `x`. */
  function Window(x: string, n: nat): (r: string)
    ensures |r| == if |x| <= n then |x| else n
    ensures EndsWith(x, r)
  {
    if |x| <= n then x else x[|x| - n..]
  }

  /** Appending one character to a buffer within bound and trimming keeps exactly the window. */
  lemma AppendOneKeepsWindow(buffer: string, c: string, n: nat)
    requires |buffer| <= n
    requires |c| == 1
    ensures ShortenIfNecessary(buffer + c, n) == Window(buffer + c, n)
  {
  }

  /** Windowing before appending loses nothing the final window would keep. */
  lemma WindowAbsorbs(x: string, y: string, n: nat)
    ensures Window(Window(x, n) + y, n) == Window(x + y, n)
  {
    if |x| > n {
      var w := x[|x| - n..];
      DropAppend(x, y, |x| - n);
      if y == [] {
        assert w + y == w && x + y == x;
      } else {
        DropDrop(x + y, |x| - n, |y|);
      }
    }
  }

  lemma DropAppend(x: string, y: string, i: nat)
    requires i <= |x|
    ensures (x + y)[i..] == x[i..] + y
  {
  }

  lemma DropDrop(z: string, i: nat, j: nat)
    requires i + j <= |z|
    ensures z[i..][j..] == z[i + j..]
  {
  }
}
