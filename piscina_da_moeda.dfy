/**
 * The coin-in-the-pool game of piscina_da_moeda.py: a grid of linhas x colunas
 * cells hides a coin; each search spends one attempt and is recorded with its
 * distance to the coin. Distances are kept as squared integers, which are zero
 * exactly where the Euclidean distance of the game is zero.
 */
module PiscinaDaMoeda {
  import opened Wrappers

  datatype Posicao = Posicao(linha: int, coluna: int)

  /** One recorded search: the guessed cell and its squared distance to the coin. */
  datatype Busca = Busca(tentativa: Posicao, distancia: nat)

  datatype Erro =
    | DimensoesInvalidas  // a grid side is not positive
    | SemTentativas       // no attempts are left

  /** Squared Euclidean distance between two cells. */
  function DistanciaQuadrada(a: Posicao, b: Posicao): (d: nat)
    ensures d == 0 <==> a == b
  {
    var dl, dc := a.linha - b.linha, a.coluna - b.coluna;
    assert dl * dl >= 0 && dc * dc >= 0;
    dl * dl + dc * dc
  }

  predicate Dentro(p: Posicao, linhas: int, colunas: int) {
    0 <= p.linha < linhas && 0 <= p.coluna < colunas
  }

  /** The attempt budget of a grid: a third of its cells, but never fewer than five. */
  function TentativasIniciais(linhas: int, colunas: int): (n: int)
    ensures n >= 5 && n >= linhas * colunas / 3
    ensures n == 5 || n == linhas * colunas / 3
  {
    if 5 >= linhas * colunas / 3 then 5 else linhas * colunas / 3
  }

  class Piscina {
    const linhas: int
    const colunas: int
    /** Where the coin lies; fixed when the pool is made. */
    const moeda: Posicao
    /** The budget the pool started with. */
    ghost const tentativasIniciais: int
    var tentativasRestantes: int
    var historico: seq<Busca>

    ghost predicate Valid()
      reads this
    {
      && linhas > 0 && colunas > 0
      && Dentro(moeda, linhas, colunas)
      && tentativasIniciais == TentativasIniciais(linhas, colunas)
      && 0 <= tentativasRestantes
      && |historico| + tentativasRestantes == tentativasIniciais
      && forall i :: 0 <= i < |historico| ==> historico[i].distancia == DistanciaQuadrada(historico[i].tentativa, moeda)
    }

    /** The pool once its dimensions passed validation; moeda is the random draw. */
    constructor (linhas: int, colunas: int, moeda: Posicao)
      requires linhas > 0 && colunas > 0
      requires Dentro(moeda, linhas, colunas)
      ensures Valid()
      ensures this.linhas == linhas && this.colunas == colunas && this.moeda == moeda
      ensures tentativasRestantes == TentativasIniciais(linhas, colunas) && historico == []
    {
      this.linhas := linhas;
      this.colunas := colunas;
      this.moeda := moeda;
      tentativasIniciais := TentativasIniciais(linhas, colunas);
      tentativasRestantes := TentativasIniciais(linhas, colunas);
      historico := [];
    }

    /**
     * Piscina(linhas, colunas): refuses a grid with a side that is not positive,
     * otherwise hides the coin at the drawn cell. The draw only happens for a
     * valid grid, so only then must it lie inside it.
     */
    static method Criar(linhas: int, colunas: int, moeda: Posicao) returns (r: Result<Piscina, Erro>)
      requires linhas > 0 && colunas > 0 ==> Dentro(moeda, linhas, colunas)
      ensures r.Failure? <==> linhas <= 0 || colunas <= 0
      ensures r.Failure? ==> r.error == DimensoesInvalidas
      ensures r.Success? ==>
        && fresh(r.value)
        && r.value.Valid()
        && r.value.linhas == linhas && r.value.colunas == colunas && r.value.moeda == moeda
        && r.value.tentativasRestantes == TentativasIniciais(linhas, colunas)
        && r.value.historico == []
    {
      if linhas <= 0 || colunas <= 0 {
        return Failure(DimensoesInvalidas);
      }
      var p := new Piscina(linhas, colunas, moeda);
      return Success(p);
    }

    function TentativasRestantes(): (n: int)
      reads this
      requires Valid()
      ensures n == tentativasRestantes
      ensures 0 <= n <= tentativasIniciais
    {
      tentativasRestantes
    }

    /** A copy of the history: every search so far, in order, with its true distance. */
    function Historico(): (h: seq<Busca>)
      reads this
      requires Valid()
      ensures h == historico
      ensures |h| + tentativasRestantes == tentativasIniciais
      ensures forall i :: 0 <= i < |h| ==> h[i].distancia == DistanciaQuadrada(h[i].tentativa, moeda)
    {
      historico
    }

    function RevelarMoeda(): (p: Posicao)
      reads this
      requires Valid()
      ensures p == moeda
      ensures Dentro(p, linhas, colunas)
    {
      moeda
    }

    /**
     * registrar_busca: with no attempt left it raises and changes nothing; otherwise
     * it spends one attempt, appends the search to the history and reports whether
     * the coin was found and how far it is.
     */
    method RegistrarBusca(tentativa: Posicao) returns (r: Result<(bool, nat), Erro>)
      requires Valid()
      modifies this
      ensures Valid()
      ensures old(tentativasRestantes) <= 0 ==>
        && r == Failure(SemTentativas)
        && tentativasRestantes == old(tentativasRestantes)
        && historico == old(historico)
      ensures old(tentativasRestantes) > 0 ==>
        && r.Success?
        && (r.value.0 <==> tentativa == moeda)
        && r.value.1 == DistanciaQuadrada(tentativa, moeda)
        && tentativasRestantes == old(tentativasRestantes) - 1
        && historico == old(historico) + [Busca(tentativa, r.value.1)]
    {
      if tentativasRestantes <= 0 {
        return Failure(SemTentativas);
      }
      tentativasRestantes := tentativasRestantes - 1;
      var distancia := DistanciaQuadrada(tentativa, moeda);
      historico := historico + [Busca(tentativa, distancia)];
      return Success((distancia == 0, distancia));
    }
  }

  /** The hint table: the first threshold the distance reaches picks the message. */
  const HINTS: seq<(real, string)> := [
    (2.5, "A água está bem fria por aqui... talvez esteja longe."),
    (1.5, "Você sente uma leve correnteza: a moeda deve estar mais perto."),
    (0.5, "Quase lá! Você vê um brilho prateado.")
  ]

  /** The message when no threshold is reached. */
  const NA_MAO := "Está praticamente na sua mão!"

  /** The distance reaches none of the thresholds of the table. */
  predicate AbaixoDeTodos(distancia: real, limites: seq<(real, string)>) {
    forall j :: 0 <= j < |limites| ==> distancia < limites[j].0
  }

  /**
   * First-match lookup of a distance in a threshold table: the message of the first
   * threshold the distance reaches, or NA_MAO when it reaches none.
   */
  function Dica(distancia: real, limites: seq<(real, string)>): (mensagem: string)
    ensures forall i :: 0 <= i < |limites| && distancia >= limites[i].0 && AbaixoDeTodos(distancia, limites[..i])
              ==> mensagem == limites[i].1
    ensures AbaixoDeTodos(distancia, limites) ==> mensagem == NA_MAO
    decreases |limites|
  {
    if |limites| == 0 then NA_MAO
    else if distancia >= limites[0].0 then limites[0].1
    else
      assert forall i :: 1 <= i < |limites| ==> limites[1..][i - 1] == limites[i] && limites[1..][..i - 1] == limites[1..i];
      Dica(distancia, limites[1..])
  }

  /** obter_hint: scans HINTS in order and returns the first message whose threshold the distance reaches. */
  method ObterHint(distancia: real) returns (mensagem: string)
    ensures mensagem == Dica(distancia, HINTS)
    ensures distancia >= 2.5 ==> mensagem == HINTS[0].1
    ensures 1.5 <= distancia < 2.5 ==> mensagem == HINTS[1].1
    ensures 0.5 <= distancia < 1.5 ==> mensagem == HINTS[2].1
    ensures distancia < 0.5 ==> mensagem == NA_MAO
  {
    var i := 0;
    while i < |HINTS|
      invariant 0 <= i <= |HINTS|
      invariant Dica(distancia, HINTS) == Dica(distancia, HINTS[i..])
    {
      if distancia >= HINTS[i].0 {
        return HINTS[i].1;
      }
      i := i + 1;
    }
    return NA_MAO;
  }

  /*
   * Stated on its own variables: the same fact asserted inline about (x - y) * (x + y)
   * is beyond the solver's nonlinear arithmetic, while for a plain product a * b it is not.
   */
  lemma ProductPositive(a: real, b: real)
    requires a > 0.0 && b > 0.0
    ensures a * b > 0.0
  {
  }

  lemma SquareMonotone(x: real, y: real)
    requires 0.0 <= x && 0.0 <= y
    ensures x <= y <==> x * x <= y * y
  {
    if x <= y {
      assert x * x <= x * y <= y * y;
    } else {
      assert x * x - y * y == (x - y) * (x + y);
      ProductPositive(x - y, x + y);
    }
  }

  /**
   * The hint for a search, read off its squared distance d2: the Euclidean distance
   * reaches 2.5, 1.5 and 0.5 exactly when d2 reaches 7, 3 and 1. In particular the
   * last message is given only when the coin was found.
   */
  lemma DicaPelaDistanciaQuadrada(a: Posicao, b: Posicao, distancia: real)
    requires distancia >= 0.0 && distancia * distancia == DistanciaQuadrada(a, b) as real
    ensures Dica(distancia, HINTS) ==
      var d2 := DistanciaQuadrada(a, b);
      if d2 >= 7 then HINTS[0].1
      else if d2 >= 3 then HINTS[1].1
      else if d2 >= 1 then HINTS[2].1
      else NA_MAO
    ensures Dica(distancia, HINTS) == NA_MAO <==> a == b
  {
    var d2 := DistanciaQuadrada(a, b);
    SquareMonotone(2.5, distancia);
    SquareMonotone(1.5, distancia);
    SquareMonotone(0.5, distancia);
    assert HINTS[1..][1..][1..] == [];
  }
}
